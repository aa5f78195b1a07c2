/** An application's key sets as a list, read from the packed metadata, the inline
    version list and the key blocks, and what one metadata rotation does to it. */
module KeySets {
  import opened Bytes
  import opened Limits
  import opened Arithmetic
  import opened SlicePools
  import opened CredentialStore
  import opened KeyBlockRotation

  /** What the metadata says of one set. */
  datatype SetInfo = SetInfo(version: byte, kind: byte, initialized: bool, keyVersions: seq<byte>)

  datatype KeySet = KeySet(info: SetInfo, keys: seq<seq<byte>>)

  predicate Bit(m: nat, j: nat)
  {
    if j == 0 then m % 2 == 1 else Bit(m / 2, j - 1)
  }

  function SetBit(m: nat, j: nat): nat
  {
    if Bit(m, j) then m else m + Pow2(j)
  }

  lemma {:induction false} BitAbove(m: nat, j: nat)
    requires m < Pow2(j)
    ensures !Bit(m, j)
  {
    if j > 0 { BitAbove(m / 2, j - 1); }
  }

  lemma {:induction false} BitsBelow(m: nat, j: nat, i: nat)
    requires m < Pow2(j) && i <= j
    ensures Bit(m + Pow2(j), i) == if i == j then true else Bit(m, i)
  {
    if i > 0 {
      assert (m + Pow2(j)) / 2 == m / 2 + Pow2(j - 1);
      BitsBelow(m / 2, j - 1, i - 1);
    }
  }

  // ---- The packed metadata ---------------------------------------------------------------

  /** Set versions, set types, the mask of initialised sets, and the key versions of
      every set but the first. */
  datatype Packed = Packed(versions: seq<byte>, kinds: seq<byte>, mask: nat, extra: seq<byte>)

  predicate PackedOk(p: Packed, s: nat, n: nat)
  {
    && MIN_KEY_SETS <= s <= MAX_KEY_SETS && 0 < n <= MAX_KEYS
    && |p.versions| == |p.kinds| == s && p.mask < Pow2(s) && p.mask < 65536
    && |p.extra| == (s - 1) * n
  }

  function Pack(p: Packed): (m: seq<byte>)
    requires p.mask < 65536
  {
    p.versions + p.kinds + [p.mask % 256, p.mask / 256] + p.extra
  }

  function Unpack(meta: seq<byte>, s: nat): Packed
    requires 2 * s + 2 <= |meta|
  {
    Packed(meta[..s], meta[s..2 * s], MaskOf(meta, s), meta[2 * s + 2..])
  }

  lemma UnpackPack(p: Packed, s: nat)
    requires |p.versions| == |p.kinds| == s && p.mask < 65536
    ensures 2 * s + 2 <= |Pack(p)| && Unpack(Pack(p), s) == p
  {
  }

  lemma PackUnpack(meta: seq<byte>, s: nat)
    requires 2 * s + 2 <= |meta|
    ensures Unpack(meta, s).mask < 65536 && Pack(Unpack(meta, s)) == meta
  {
    assert meta == meta[..s] + meta[s..2 * s] + [meta[2 * s], meta[2 * s + 1]] + meta[2 * s + 2..];
  }

  // ---- Reading sets --------------------------------------------------------------------

  function KeyVersions(first: seq<byte>, extra: seq<byte>, s: nat, j: nat): (r: seq<byte>)
    requires j < s && |extra| == (s - 1) * |first|
  {
    if j == 0 then first
    else
      BlocksApart(j - 1, s - 1, |first|);
      extra[(j - 1) * |first|..(j - 1) * |first| + |first|]
  }

  /** What the packed metadata and the first set's key versions say of set `j`. */
  function SetInfoAt(first: seq<byte>, p: Packed, j: nat): SetInfo
    requires PackedOk(p, |p.versions|, |first|) && j < |p.versions|
  {
    SetInfo(p.versions[j], p.kinds[j], Bit(p.mask, j), KeyVersions(first, p.extra, |p.versions|, j))
  }

  function SetInfos(first: seq<byte>, p: Packed): (r: seq<SetInfo>)
    requires PackedOk(p, |p.versions|, |first|)
    ensures |r| == |p.versions|
  {
    seq(|p.versions|, j requires 0 <= j < |p.versions| => SetInfoAt(first, p, j))
  }

  // ---- One rotation of the metadata ----------------------------------------------------

  function RotatedMask(mask: nat, s: nat): nat
    requires s > 0
  {
    if mask % 2 == 1 then SetBit(mask / 2, s - 1) else mask / 2
  }

  /** The set after `j`, round the end. */
  function Next(j: nat, s: nat): nat
  {
    if j + 1 == s then 0 else j + 1
  }

  lemma RotatedMaskBits(mask: nat, s: nat, j: nat)
    requires s > 0 && mask < Pow2(s) && j < s
    ensures RotatedMask(mask, s) < Pow2(s)
    ensures Bit(RotatedMask(mask, s), j) == Bit(mask, Next(j, s))
  {
    BitAbove(mask / 2, s - 1);
    BitsBelow(mask / 2, s - 1, j);
    assert Bit(mask, j + 1) == Bit(mask / 2, j);
  }

  function Up<T>(x: seq<T>): (r: seq<T>)
    requires x != []
    ensures |r| == |x|
    ensures forall j :: 0 <= j < |x| ==> r[j] == x[Next(j, |x|)]
  {
    x[1..] + [x[0]]
  }

  /** The metadata after one rotation: each list moves up by one set, and what was
      first goes to the end. */
  function Rotated(first: seq<byte>, p: Packed): (r: Packed)
    requires PackedOk(p, |p.versions|, |first|)
    ensures PackedOk(r, |p.versions|, |first|)
  {
    var s, n := |p.versions|, |first|;
    RotatedMaskBits(p.mask, s, 0);
    PowerWithin16(s);
    BlocksApart(0, s - 1, n);
    Packed(Up(p.versions), Up(p.kinds), RotatedMask(p.mask, s), p.extra[n..] + first)
  }

  /** The key versions that become the first set's. */
  function NextFirst(first: seq<byte>, p: Packed): (r: seq<byte>)
    requires PackedOk(p, |p.versions|, |first|)
    ensures |r| == |first|
  {
    BlocksApart(0, |p.versions| - 1, |first|);
    p.extra[..|first|]
  }

  lemma ShiftedSlice(extra: seq<byte>, first: seq<byte>, at: nat)
    requires at + |first| <= |extra|
    ensures var n := |first|; var tail := extra[n..] + first;
            && (at + n == |extra| ==> tail[at..at + n] == first)
            && (at + n + n <= |extra| ==> tail[at..at + n] == extra[at + n..at + n + n])
  {
  }

  lemma RotatedKeyVersions(first: seq<byte>, extra: seq<byte>, s: nat, j: nat)
    requires j < s && 1 < s && 0 < |first| <= |extra| == (s - 1) * |first|
    ensures KeyVersions(extra[..|first|], extra[|first|..] + first, s, j) == KeyVersions(first, extra, s, Next(j, s))
  {
    var n := |first|;
    if j > 0 {
      BlocksApart(j - 1, s - 1, n);
      assert j * n == (j - 1) * n + n;
      if j < s - 1 { BlocksApart(j, s - 1, n); }
      ShiftedSlice(extra, first, (j - 1) * n);
    }
  }

  lemma TurnedByOne(j: nat, s: nat)
    requires j < s
    ensures Turned(j, 1, s) == Next(j, s)
  {
    DivModUnique(j + 1, if j + 1 == s then 1 else 0, s, Next(j, s));
  }

  /** One metadata rotation moves every set's version, type, initialised bit and key
      versions up by one set. */
  lemma RotationMovesSets(first: seq<byte>, p: Packed)
    requires PackedOk(p, |p.versions|, |first|)
    ensures SetInfos(NextFirst(first, p), Rotated(first, p)) == RotateLeft(SetInfos(first, p), 1)
  {
    hide RotateLeft, Turned, RotatedMask, KeyVersions, Pow2;
    var s := |p.versions|;
    BlocksApart(0, s - 1, |first|);
    forall j | 0 <= j < s
      ensures SetInfos(NextFirst(first, p), Rotated(first, p))[j] == RotateLeft(SetInfos(first, p), 1)[j]
    {
      RotatedKeyVersions(first, p.extra, s, j);
      RotatedMaskBits(p.mask, s, j);
      RotateAt(SetInfos(first, p), 1, j);
      TurnedByOne(j, s);
    }
  }

  // The moves the rotation makes on the packed metadata, one after the other.

  /** Closes up the key versions from `base` and puts `first` behind them. */
  function TailMoved(meta: seq<byte>, base: nat, first: seq<byte>): (r: seq<byte>)
    requires base + |first| <= |meta|
    ensures |r| == |meta|
  {
    Overwritten(Overwritten(meta, base, meta[base + |first|..]), |meta| - |first|, first)
  }

  /** Moves the `s` octets from `at` up by one and puts the first of them behind. */
  function MovedUp(meta: seq<byte>, at: nat, s: nat): (r: seq<byte>)
    requires 0 < s && at + s <= |meta|
    ensures |r| == |meta|
  {
    Overwritten(Overwritten(meta, at, meta[at + 1..at + s]), at + s - 1, [meta[at]])
  }

  /** Moves up the set versions and the set types, and stores the mask. */
  function HeadMoved(meta: seq<byte>, s: nat, mask: seq<byte>): (r: seq<byte>)
    requires 0 < s && 2 * s + |mask| <= |meta|
    ensures |r| == |meta|
  {
    Overwritten(MovedUp(MovedUp(meta, 0, s), s, s), 2 * s, mask)
  }

  lemma TailMoves(head: seq<byte>, x: seq<byte>, first: seq<byte>)
    requires |first| <= |x|
    ensures TailMoved(head + x, |head|, first) == head + (x[|first|..] + first)
  {
    assert (head + x)[|head| + |first|..] == x[|first|..];
  }

  lemma MovesUp(before: seq<byte>, list: seq<byte>, after: seq<byte>)
    requires list != []
    ensures MovedUp(before + list + after, |before|, |list|) == before + Up(list) + after
  {
    var all, s := before + list + after, |list|;
    assert all[|before| + 1..|before| + s] == list[1..];
    var mid := Overwritten(all, |before|, list[1..]);
    assert mid == before + list[1..] + [list[s - 1]] + after;
  }

  lemma HeadMoves(v: seq<byte>, t: seq<byte>, m: seq<byte>, x: seq<byte>, mask: seq<byte>)
    requires 0 < |v| == |t| && |m| == |mask|
    ensures HeadMoved(v + t + m + x, |v|, mask) == Up(v) + Up(t) + mask + x
  {
    hide MovedUp;
    MovesUp([], v, t + m + x);
    assert [] + v + (t + m + x) == v + t + m + x;
    MovesUp(Up(v), t, m + x);
    assert [] + Up(v) + (t + m + x) == Up(v) + t + (m + x);
    assert Overwritten(Up(v) + Up(t) + (m + x), |v| + |t|, mask) == Up(v) + Up(t) + mask + x;
  }

  lemma InPlaceRotation(first: seq<byte>, p: Packed)
    requires PackedOk(p, |p.versions|, |first|)
    ensures var s := |p.versions|; var mask := RotatedMask(p.mask, s);
      && 2 * s + 2 + |first| <= |Pack(p)| && mask < 65536
      && HeadMoved(TailMoved(Pack(p), 2 * s + 2, first), s, [mask % 256, mask / 256]) == Pack(Rotated(first, p))
  {
    var s, n := |p.versions|, |first|;
    var r := Rotated(first, p);
    BlocksApart(0, s - 1, n);
    hide TailMoved;
    hide HeadMoved;
    hide RotatedMask;
    var m := [p.mask % 256, p.mask / 256];
    TailMoves(p.versions + p.kinds + m, p.extra, first);
    HeadMoves(p.versions, p.kinds, m, p.extra[n..] + first, [r.mask % 256, r.mask / 256]);
  }

  // ---- Rotations compose -----------------------------------------------------------------

  lemma TurnedTwice(i: nat, a: nat, b: nat, n: nat)
    requires n > 0
    ensures Turned(Turned(i, b, n), a, n) == Turned(i, a + b, n)
  {
    ModAdd(i + b, a, n);
    assert i + b + a == i + (a + b);
  }

  lemma RotateAgainAt<T>(x: seq<T>, a: nat, b: nat, i: nat)
    requires i < |x|
    ensures RotateLeft(RotateLeft(x, a), b)[i] == RotateLeft(x, a + b)[i]
  {
    hide RotateLeft, Turned;
    RotateAt(RotateLeft(x, a), b, i);
    RotateAt(x, a, Turned(i, b, |x|));
    RotateAt(x, a + b, i);
    TurnedTwice(i, a, b, |x|);
  }

  lemma RotateAgain<T>(x: seq<T>, a: nat, b: nat)
    ensures RotateLeft(RotateLeft(x, a), b) == RotateLeft(x, a + b)
  {
    hide RotateLeft;
    forall i | 0 <= i < |x|
      ensures RotateLeft(RotateLeft(x, a), b)[i] == RotateLeft(x, a + b)[i]
    {
      RotateAgainAt(x, a, b, i);
    }
  }

  lemma RotateFull<T>(x: seq<T>)
    ensures RotateLeft(x, |x|) == x
  {
    hide RotateLeft;
    forall i | 0 <= i < |x|
      ensures RotateLeft(x, |x|)[i] == x[i]
    {
      RotateAt(x, |x|, i);
      DivModUnique(i + |x|, 1, |x|, i);
    }
  }

  lemma RotateNone<T>(x: seq<T>)
    ensures RotateLeft(x, 0) == x
  {
  }

  lemma FullTurn<T>(x: seq<T>, r: nat)
    requires r <= |x|
    ensures RotateLeft(RotateLeft(x, r), |x| - r) == x
  {
    hide RotateLeft;
    RotateAgain(x, r, |x| - r);
    RotateFull(x);
  }

  // ---- Whole sets -----------------------------------------------------------------------

  /** The `n` blocks of set `j`. */
  function KeysOfSet(blocks: seq<seq<byte>>, s: nat, n: nat, j: nat): (k: seq<seq<byte>>)
    requires |blocks| == s * n && j < s
    ensures |k| == n
  {
    BlocksApart(j, s, n);
    blocks[j * n..j * n + n]
  }

  function SetsOf(infos: seq<SetInfo>, blocks: seq<seq<byte>>, n: nat): (sets: seq<KeySet>)
    requires |blocks| == |infos| * n
    ensures |sets| == |infos|
  {
    seq(|infos|, j requires 0 <= j < |infos| => KeySet(infos[j], KeysOfSet(blocks, |infos|, n, j)))
  }

  /** Block `i` of set `j`, turned by `r` sets, is block `i` of the turned set. */
  lemma TurnedBlock(s: nat, n: nat, r: nat, j: nat, i: nat)
    requires j < s && i < n
    ensures s * n > 0 && j * n + i < s * n && Turned(j * n + i, r * n, s * n) == Turned(j, r, s) * n + i
  {
    BlocksApart(j, s, n);
    ClassWraps(n, s, i, j + r);
    assert j * n + i + r * n == (j + r) * n + i;
  }

  lemma KeyAt(blocks: seq<seq<byte>>, s: nat, n: nat, j: nat, i: nat)
    requires |blocks| == s * n && j < s && i < n
    ensures j * n + i < |blocks| && KeysOfSet(blocks, s, n, j)[i] == blocks[j * n + i]
  {
    BlocksApart(j, s, n);
  }

  lemma RotatedBlock(blocks: seq<seq<byte>>, s: nat, n: nat, r: nat, j: nat, i: nat)
    requires |blocks| == s * n && j < s && i < n
    ensures KeysOfSet(RotateLeft(blocks, r * n), s, n, j)[i] == KeysOfSet(blocks, s, n, Turned(j, r, s))[i]
  {
    hide RotateLeft, Turned, KeysOfSet;
    TurnedBlock(s, n, r, j, i);
    KeyAt(RotateLeft(blocks, r * n), s, n, j, i);
    KeyAt(blocks, s, n, Turned(j, r, s), i);
    RotateAt(blocks, r * n, j * n + i);
  }

  lemma RotatedBlocks(blocks: seq<seq<byte>>, s: nat, n: nat, r: nat, j: nat)
    requires |blocks| == s * n && j < s
    ensures KeysOfSet(RotateLeft(blocks, r * n), s, n, j) == KeysOfSet(blocks, s, n, Turned(j, r, s))
  {
    hide RotateLeft, Turned, KeysOfSet;
    forall i | 0 <= i < n
      ensures KeysOfSet(RotateLeft(blocks, r * n), s, n, j)[i] == KeysOfSet(blocks, s, n, Turned(j, r, s))[i]
    {
      RotatedBlock(blocks, s, n, r, j, i);
    }
  }

  /** Rotating the set data by `r` sets and the key blocks by `r * n` blocks rotates
      the list of whole sets by `r`. */
  lemma WholeSetsRotate(infos: seq<SetInfo>, blocks: seq<seq<byte>>, n: nat, r: nat)
    requires |blocks| == |infos| * n && n > 0
    ensures SetsOf(RotateLeft(infos, r), RotateLeft(blocks, r * n), n) == RotateLeft(SetsOf(infos, blocks, n), r)
  {
    hide RotateLeft, Turned, KeysOfSet;
    forall j | 0 <= j < |infos|
      ensures SetsOf(RotateLeft(infos, r), RotateLeft(blocks, r * n), n)[j] == RotateLeft(SetsOf(infos, blocks, n), r)[j]
    {
      RotatedBlocks(blocks, |infos|, n, r, j);
      RotateAt(infos, r, j);
      RotateAt(SetsOf(infos, blocks, n), r, j);
    }
  }

  /** A record that holds several key sets. */
  predicate HasSets(o: Owned)
  {
    Consistent(o) && o.k.numKeys > 0 && o.k.numKeySets >= MIN_KEY_SETS
  }

  lemma HasSetsShape(o: Owned)
    requires HasSets(o)
    ensures PackedOk(Unpack(o.meta, o.k.numKeySets), o.k.numKeySets, o.k.numKeys)
    ensures |o.meta| == 2 * o.k.numKeySets + 2 + (o.k.numKeySets - 1) * o.k.numKeys
    ensures (o.k.numKeySets * o.k.numKeys) * Stride(o.k.storageLen) == |o.keys|
    ensures o.k.numKeys > 0 && o.k.numKeySets > 0
  {
    hide Pow2;
    PowerWithin16(o.k.numKeySets);
    var meta, s := o.meta, o.k.numKeySets;
    assert |Unpack(meta, s).extra| == |meta| - (2 * s + 2);
  }

  function InfosOf(o: Owned): (r: seq<SetInfo>)
    requires HasSets(o)
    ensures |r| == o.k.numKeySets
  {
    HasSetsShape(o);
    SetInfos(o.k.versions[..o.k.numKeys], Unpack(o.meta, o.k.numKeySets))
  }

  function BlocksOf(o: Owned): (r: seq<seq<byte>>)
    requires HasSets(o)
    ensures |r| == o.k.numKeySets * o.k.numKeys
  {
    HasSetsShape(o);
    Blocks(o.keys, 0, Stride(o.k.storageLen), o.k.numKeySets * o.k.numKeys)
  }

  /** The key sets of a record, the active one first. */
  function Sets(o: Owned): (r: seq<KeySet>)
    requires HasSets(o)
    ensures |r| == o.k.numKeySets
  {
    SetsOf(InfosOf(o), BlocksOf(o), o.k.numKeys)
  }

  /** A record after one rotation of its set metadata. */
  function RotatedRecord(o: Owned): (r: Owned)
    requires HasSets(o)
    ensures HasSets(r) && InfosOf(r) == RotateLeft(InfosOf(o), 1)
    ensures r.keys == o.keys && SameButVersions(o.k, r.k)
  {
    HasSetsShape(o);
    var first, p := o.k.versions[..o.k.numKeys], Unpack(o.meta, o.k.numKeySets);
    RotationMovesSets(first, p);
    var q := Rotated(first, p);
    UnpackPack(q, o.k.numKeySets);
    var r := Owned(o.k.(versions := NextFirst(first, p) + o.k.versions[o.k.numKeys..]), o.keys, Pack(q));
    assert r.k.versions[..o.k.numKeys] == NextFirst(first, p);
    r
  }

  /** The moves a rotation makes on a record. */
  lemma RotatedParts(o: Owned)
    requires HasSets(o)
    ensures 0 < o.k.numKeys <= |o.k.versions| && 2 * o.k.numKeySets + 2 + o.k.numKeys <= |o.meta|
    ensures var n, s := o.k.numKeys, o.k.numKeySets; var first, p := o.k.versions[..n], Unpack(o.meta, s);
      && |p.versions| == s && PackedOk(p, s, n)
      && RotatedRecord(o) == Owned(o.k.(versions := o.meta[2 * s + 2..][..n] + o.k.versions[n..]), o.keys,
                                   Pack(Rotated(first, p)))
  {
    HasSetsShape(o);
    BlocksApart(0, o.k.numKeySets - 1, o.k.numKeys);
  }

  /** The key settings with the type bits of the active set. */
  function SettingsFor(settings2: byte, kind: byte): byte
  {
    settings2 % 64 + (if kind == 1 then 0x40 else if kind == 2 then 0x80 else 0)
  }

  lemma BlockOfSlice(pool: seq<byte>, base: nat, width: nat, count: nat, content: seq<byte>, b: nat)
    requires base + count * width <= |pool| && content == pool[base..base + count * width] && b < count
    ensures BlockAt(content, 0, width, count, b) == BlockAt(pool, base, width, count, b)
  {
    BlocksApart(b, count, width);
    assert b * width + width <= count * width;
    assert content[b * width..b * width + width] == pool[base + b * width..base + b * width + width];
  }

  /** Blocks of a slice of the pool are blocks of the pool. */
  lemma BlocksOfSlice(pool: seq<byte>, base: nat, width: nat, count: nat, content: seq<byte>)
    requires base + count * width <= |pool| && content == pool[base..base + count * width]
    ensures Blocks(content, 0, width, count) == Blocks(pool, base, width, count)
  {
    hide BlockAt;
    forall b | 0 <= b < count
      ensures BlockAt(content, 0, width, count, b) == BlockAt(pool, base, width, count, b)
    {
      BlockOfSlice(pool, base, width, count, content, b);
    }
  }

  /** By how many blocks `r` sets of `n` keys move. */
  function BlockShift(r: nat, n: nat): nat
  {
    r * n
  }

  /** The active set's key versions may differ and nothing else. */
  predicate SameButVersions(before: Keyed, after: Keyed)
  {
    && after == before.(versions := after.versions) && |after.versions| == |before.versions|
    && forall i :: before.numKeys <= i < |before.versions| ==> after.versions[i] == before.versions[i]
  }

  /** The key blocks of `after` are those of `before`, moved by `r` sets. */
  ghost predicate BlocksMoved(before: Owned, after: Owned, r: nat)
  {
    && HasSets(before) && HasSets(after)
    && after.meta == before.meta && after.k == before.k
    && BlocksOf(after) == RotateLeft(BlocksOf(before), BlockShift(r, before.k.numKeys))
  }

  lemma BlocksRotated(o: Owned, keys: seq<byte>, r: nat)
    requires HasSets(o) && |keys| == |o.keys| == (o.k.numKeySets * o.k.numKeys) * Stride(o.k.storageLen)
    requires var width, count := Stride(o.k.storageLen), o.k.numKeySets * o.k.numKeys;
      Blocks(keys, 0, width, count) == RotateLeft(Blocks(o.keys, 0, width, count), BlockShift(r, o.k.numKeys))
    ensures BlocksMoved(o, o.(keys := keys), r) && HasSets(o.(keys := keys))
  {
    hide Blocks;
    hide RotateLeft;
  }

  /** The set metadata of `after` is that of `before`, moved by `r` sets. */
  ghost predicate InfosMoved(before: Owned, after: Owned, r: nat)
    ensures InfosMoved(before, after, r) ==> HasSets(after)
  {
    && HasSets(before) && HasSets(after)
    && after.keys == before.keys && SameButVersions(before.k, after.k)
    && InfosOf(after) == RotateLeft(InfosOf(before), r)
  }

  lemma NothingMoved(o: Owned)
    requires HasSets(o)
    ensures InfosMoved(o, o, 0)
  {
    RotateNone(InfosOf(o));
  }

  lemma MovedByOne(o: Owned)
    requires HasSets(o)
    ensures InfosMoved(o, RotatedRecord(o), 1)
  {
  }

  lemma InfosMovedAgain(a: Owned, b: Owned, c: Owned, r: nat)
    requires InfosMoved(a, b, r) && InfosMoved(b, c, 1)
    ensures InfosMoved(a, c, r + 1)
  {
    hide RotateLeft;
    RotateAgain(InfosOf(a), r, 1);
  }

  // ---- A record is determined by its sets -------------------------------------------------

  /** Piece `j` of a list made of `count` pieces of `n`. */
  function Piece<T>(x: seq<T>, count: nat, n: nat, j: nat): seq<T>
    requires |x| == count * n && j < count
  {
    BlocksApart(j, count, n);
    x[j * n..j * n + n]
  }

  lemma PieceHolds<T>(x: seq<T>, count: nat, n: nat, j: nat, r: nat)
    requires |x| == count * n && j < count && r < n
    ensures j * n + r < |x| && |Piece(x, count, n, j)| == n && Piece(x, count, n, j)[r] == x[j * n + r]
  {
    BlocksApart(j, count, n);
  }

  lemma PiecesDetermine<T>(x: seq<T>, y: seq<T>, count: nat, n: nat)
    requires |x| == |y| == count * n && n > 0
    requires forall j :: 0 <= j < count ==> Piece(x, count, n, j) == Piece(y, count, n, j)
    ensures x == y
  {
    hide Piece;
    forall i | 0 <= i < |x|
      ensures x[i] == y[i]
    {
      QuotientBelow(i, count, n);
      PieceHolds(x, count, n, i / n, i % n);
      PieceHolds(y, count, n, i / n, i % n);
    }
  }

  lemma {:induction false} BitsDetermine(m: nat, k: nat, s: nat)
    requires m < Pow2(s) && k < Pow2(s)
    requires forall j :: 0 <= j < s ==> Bit(m, j) == Bit(k, j)
    ensures m == k
  {
    if s > 0 {
      forall j | 0 <= j < s - 1
        ensures Bit(m / 2, j) == Bit(k / 2, j)
      {
        assert Bit(m, j + 1) == Bit(k, j + 1);
      }
      BitsDetermine(m / 2, k / 2, s - 1);
      assert Bit(m, 0) == Bit(k, 0);
    }
  }

  /** What is said of the sets gives back the packed metadata and the first versions. */
  lemma InfosDetermine(first: seq<byte>, p: Packed, other: seq<byte>, q: Packed)
    requires PackedOk(p, |p.versions|, |first|) && PackedOk(q, |q.versions|, |other|)
    requires |first| == |other| && SetInfos(first, p) == SetInfos(other, q)
    ensures first == other && p == q
  {
    hide KeyVersions;
    hide Pow2;
    var s := |p.versions|;
    assert |SetInfos(first, p)| == |SetInfos(other, q)|;
    forall j | 0 <= j < s
      ensures SetInfoAt(first, p, j) == SetInfoAt(other, q, j)
    {
      assert SetInfos(first, p)[j] == SetInfos(other, q)[j];
    }
    VersionsDetermine(first, p, other, q);
    MaskDetermined(first, p, other, q);
    assert p.versions == q.versions && p.kinds == q.kinds by {
      forall j | 0 <= j < s
        ensures p.versions[j] == q.versions[j] && p.kinds[j] == q.kinds[j]
      {
        assert SetInfoAt(first, p, j) == SetInfoAt(other, q, j);
      }
    }
  }

  lemma MaskDetermined(first: seq<byte>, p: Packed, other: seq<byte>, q: Packed)
    requires PackedOk(p, |p.versions|, |first|) && PackedOk(q, |p.versions|, |other|)
    requires forall j :: 0 <= j < |p.versions| ==> SetInfoAt(first, p, j) == SetInfoAt(other, q, j)
    ensures p.mask == q.mask
  {
    hide KeyVersions;
    forall j | 0 <= j < |p.versions|
      ensures Bit(p.mask, j) == Bit(q.mask, j)
    {
      assert SetInfoAt(first, p, j) == SetInfoAt(other, q, j);
    }
    BitsDetermine(p.mask, q.mask, |p.versions|);
  }

  lemma VersionsDetermine(first: seq<byte>, p: Packed, other: seq<byte>, q: Packed)
    requires PackedOk(p, |p.versions|, |first|) && PackedOk(q, |p.versions|, |first|) && |other| == |first|
    requires forall j :: 0 <= j < |p.versions| ==> SetInfoAt(first, p, j) == SetInfoAt(other, q, j)
    ensures first == other && p.extra == q.extra
  {
    hide Pow2;
    var more, n := |p.versions| - 1, |first|;
    assert SetInfoAt(first, p, 0) == SetInfoAt(other, q, 0);
    forall j | 0 <= j < more
      ensures Piece(p.extra, more, n, j) == Piece(q.extra, more, n, j)
    {
      assert SetInfoAt(first, p, j + 1) == SetInfoAt(other, q, j + 1);
    }
    PiecesDetermine(p.extra, q.extra, more, n);
  }

  lemma BlocksDetermine(x: seq<byte>, y: seq<byte>, width: nat, count: nat)
    requires |x| == |y| == count * width && width > 0
    requires Blocks(x, 0, width, count) == Blocks(y, 0, width, count)
    ensures x == y
  {
    forall b | 0 <= b < count
      ensures Piece(x, count, width, b) == Piece(y, count, width, b)
    {
      assert Blocks(x, 0, width, count)[b] == Blocks(y, 0, width, count)[b];
    }
    PiecesDetermine(x, y, count, width);
  }

  lemma WholeSetsDetermine(infos: seq<SetInfo>, blocks: seq<seq<byte>>, others: seq<SetInfo>, more: seq<seq<byte>>, n: nat)
    requires |blocks| == |infos| * n && |more| == |others| * n && n > 0
    requires SetsOf(infos, blocks, n) == SetsOf(others, more, n)
    ensures infos == others && blocks == more
  {
    hide KeysOfSet;
    assert |SetsOf(infos, blocks, n)| == |SetsOf(others, more, n)|;
    forall j | 0 <= j < |infos|
      ensures infos[j] == others[j] && KeysOfSet(blocks, |infos|, n, j) == KeysOfSet(more, |infos|, n, j)
    {
      assert SetsOf(infos, blocks, n)[j] == SetsOf(others, more, n)[j];
    }
    KeysDetermine(blocks, more, |infos|, n);
  }

  lemma KeysDetermine(blocks: seq<seq<byte>>, more: seq<seq<byte>>, s: nat, n: nat)
    requires |blocks| == |more| == s * n && n > 0
    requires forall j :: 0 <= j < s ==> KeysOfSet(blocks, s, n, j) == KeysOfSet(more, s, n, j)
    ensures blocks == more
  {
    forall j | 0 <= j < s
      ensures Piece(blocks, s, n, j) == Piece(more, s, n, j)
    {
      assert KeysOfSet(blocks, s, n, j) == KeysOfSet(more, s, n, j);
    }
    PiecesDetermine(blocks, more, s, n);
  }

  /** The key sets of a record, with what no roll touches, determine its key octets, its
      metadata octets and its key versions. */
  lemma SetsDetermine(o: Owned, t: Owned)
    requires HasSets(o) && HasSets(t) && SameButVersions(o.k, t.k) && Sets(o) == Sets(t)
    ensures o == t
  {
    hide SetInfos;
    hide Blocks;
    hide SetsOf;
    hide Unpack;
    HasSetsShape(o);
    HasSetsShape(t);
    var s, n := o.k.numKeySets, o.k.numKeys;
    WholeSetsDetermine(InfosOf(o), BlocksOf(o), InfosOf(t), BlocksOf(t), n);
    BlocksDetermine(o.keys, t.keys, Stride(o.k.storageLen), s * n);
    InfosDetermine(o.k.versions[..n], Unpack(o.meta, s), t.k.versions[..n], Unpack(t.meta, s));
    PackUnpack(o.meta, s);
    PackUnpack(t.meta, s);
    assert o.k.versions == o.k.versions[..n] + o.k.versions[n..];
    assert t.k.versions == o.k.versions;
  }

  // ---- Rolling ----------------------------------------------------------------------------

  /** The type of the active set, behind the set versions. */
  function ActiveKind(o: Owned): byte
    requires HasSets(o)
  {
    HasSetsShape(o);
    o.meta[o.k.numKeySets]
  }

  /** A record with its key length and settings taken from the active set. */
  function Followed(o: Owned): Owned
    requires HasSets(o)
  {
    o.(k := o.k.(keyLen := SetKeyLength(ActiveKind(o)), settings2 := SettingsFor(o.k.settings2, ActiveKind(o))))
  }

  /** The record's key length and type bits are those of its active set. */
  predicate TypeFollows(o: Owned)
    requires HasSets(o)
  {
    o.k.keyLen == SetKeyLength(ActiveKind(o)) && o.k.settings2 == SettingsFor(o.k.settings2, ActiveKind(o))
  }

  /** `t` is `o` with set `r` made the active one. */
  ghost predicate IsRolled(o: Owned, t: Owned, r: nat)
  {
    && HasSets(o) && HasSets(t) && Sets(t) == RotateLeft(Sets(o), r) && TypeFollows(t)
    && t.k.settings2 == SettingsFor(o.k.settings2, ActiveKind(t))
    && SameButVersions(o.k.(keyLen := t.k.keyLen, settings2 := t.k.settings2), t.k)
  }

  lemma ActiveKindOfSets(o: Owned)
    requires HasSets(o)
    ensures Sets(o)[0].info.kind == ActiveKind(o)
  {
    hide Blocks;
    hide KeyVersions;
    HasSetsShape(o);
  }

  /** Key length and type do not enter the sets. */
  lemma FollowedKeeps(o: Owned)
    requires HasSets(o)
    ensures HasSets(Followed(o)) && Sets(Followed(o)) == Sets(o) && TypeFollows(Followed(o))
    ensures Followed(o) == o <==> TypeFollows(o)
  {
  }

  /** Key blocks moved by `r` sets and set metadata moved by `r`, with the key length and
      type bits taken over at the end, make a roll by `r`. */
  lemma RollSteps(o: Owned, mid: Owned, turned: Owned, r: nat)
    requires BlocksMoved(o, mid, r) && InfosMoved(mid, turned, r)
    ensures IsRolled(o, Followed(turned), r)
  {
    hide RotateLeft;
    hide SetInfos;
    hide Blocks;
    hide SetsOf;
    assert InfosOf(mid) == InfosOf(o);
    assert BlocksOf(turned) == BlocksOf(mid);
    WholeSetsRotate(InfosOf(o), BlocksOf(o), o.k.numKeys, r);
    FollowedKeeps(turned);
  }

  /** A roll has one outcome. */
  lemma RollUnique(o: Owned, t: Owned, u: Owned, r: nat)
    requires IsRolled(o, t, r) && IsRolled(o, u, r)
    ensures t == u
  {
    hide Sets;
    hide RotateLeft;
    hide HasSets;
    ActiveKindOfSets(t);
    ActiveKindOfSets(u);
    SetsDetermine(t, u);
  }

  // The roll as a function: blocks first, then the metadata one set at a time.

  lemma {:induction false} JoinedLength(blocks: seq<seq<byte>>, width: nat)
    requires forall b :: 0 <= b < |blocks| ==> |blocks[b]| == width
    ensures |Concat(blocks)| == |blocks| * width
  {
    if blocks != [] {
      JoinedLength(blocks[1..], width);
      assert |blocks| * width == width + (|blocks| - 1) * width;
    }
  }

  lemma {:induction false} JoinedBlock(blocks: seq<seq<byte>>, width: nat, b: nat)
    requires forall i :: 0 <= i < |blocks| ==> |blocks[i]| == width
    requires b < |blocks|
    ensures b * width + width <= |Concat(blocks)| && Concat(blocks)[b * width..b * width + width] == blocks[b]
  {
    if b > 0 {
      JoinedBlock(blocks[1..], width, b - 1);
      assert b * width == width + (b - 1) * width;
      assert Concat(blocks)[b * width..b * width + width] == Concat(blocks[1..])[(b - 1) * width..(b - 1) * width + width];
    }
  }

  lemma BlocksOfJoined(blocks: seq<seq<byte>>, width: nat)
    requires forall b :: 0 <= b < |blocks| ==> |blocks[b]| == width
    ensures |Concat(blocks)| == |blocks| * width && Blocks(Concat(blocks), 0, width, |blocks|) == blocks
  {
    JoinedLength(blocks, width);
    forall b | 0 <= b < |blocks|
      ensures BlockAt(Concat(blocks), 0, width, |blocks|, b) == blocks[b]
    {
      JoinedBlock(blocks, width, b);
    }
  }

  function KeysRotated(o: Owned, r: nat): (t: Owned)
    requires HasSets(o)
    ensures BlocksMoved(o, t, r)
  {
    HasSetsShape(o);
    var blocks := RotateLeft(BlocksOf(o), BlockShift(r, o.k.numKeys));
    assert forall b :: 0 <= b < |blocks| ==> |blocks[b]| == Stride(o.k.storageLen);
    BlocksOfJoined(blocks, Stride(o.k.storageLen));
    o.(keys := Concat(blocks))
  }

  function MetadataRotated(o: Owned, r: nat): (t: Owned)
    requires HasSets(o)
    ensures InfosMoved(o, t, r)
  {
    hide HasSets, InfosMoved;
    if r == 0 then
      NothingMoved(o);
      o
    else
      var m := MetadataRotated(o, r - 1);
      MovedByOne(m);
      InfosMovedAgain(o, m, RotatedRecord(m), r - 1);
      RotatedRecord(m)
  }

  /** A record with set `r` made the active one. */
  function Rolled(o: Owned, r: nat): (t: Owned)
    requires HasSets(o)
    ensures IsRolled(o, t, r)
  {
    var mid := KeysRotated(o, r);
    var turned := MetadataRotated(mid, r);
    RollSteps(o, mid, turned, r);
    Followed(turned)
  }

  lemma RolledConsistent(o: Owned, r: nat)
    requires HasSets(o)
    ensures Consistent(Rolled(o, r))
  {
    hide Rolled;
  }

  lemma RolledShape(o: Owned, r: nat)
    requires HasSets(o)
    ensures HasSets(Rolled(o, r)) && Rolled(o, r).k.numKeySets == o.k.numKeySets
  {
    hide Rolled;
  }

  /** Rolling by `r` and then by what is left to a full turn gives back the record with
      its key length and type bits taken from the active set, and so the record itself
      exactly when they already agreed with that set. */
  lemma RollBackRestores(o: Owned, r: nat)
    requires HasSets(o) && r <= o.k.numKeySets
    ensures Rolled(Rolled(o, r), o.k.numKeySets - r) == Followed(o)
    ensures Rolled(Rolled(o, r), o.k.numKeySets - r) == o <==> TypeFollows(o)
  {
    hide Sets;
    hide RotateLeft;
    hide Rolled;
    var back := Rolled(Rolled(o, r), o.k.numKeySets - r);
    FullTurn(Sets(o), r);
    ActiveKindOfSets(back);
    ActiveKindOfSets(o);
    FollowedKeeps(o);
    SetsDetermine(Followed(o), back);
  }

  /** Freshly made key sets are all of type zero, whatever key length they were made for:
      rolling them back restores them exactly when that length is 16 and the settings say
      the same type. */
  lemma FreshSetsFollow(o: Owned, numKeySets: nat, numKeys: nat, activeLen: nat, maxKeySize: nat)
    requires Consistent(o) && MIN_KEY_SETS <= numKeySets <= MAX_KEY_SETS && 0 < numKeys <= MAX_KEYS
    ensures var fresh_ := KeySetsResized(o, numKeySets, numKeys, activeLen, maxKeySize);
      HasSets(fresh_) && (TypeFollows(fresh_) <==> activeLen == 16 && o.k.settings2 < 64)
  {
    KeySetsResizedConsistent(o, numKeySets, numKeys, activeLen, maxKeySize);
    var fresh_ := KeySetsResized(o, numKeySets, numKeys, activeLen, maxKeySize);
    assert ActiveKind(fresh_) == 0;
  }

  /** Two sets made for keys of 24 octets come back from a full turn with a key length
      of 16. */
  lemma FreshSetsNotRestored()
    ensures var o := KeySetsResized(Owned(BLANK, [], []), 2, 1, 24, 24);
      && HasSets(o) && Rolled(Rolled(o, 1), 1) != o
      && Rolled(Rolled(o, 1), 1) == o.(k := o.k.(keyLen := 16))
  {
    hide Rolled;
    var o := KeySetsResized(Owned(BLANK, [], []), 2, 1, 24, 24);
    FreshSetsFollow(Owned(BLANK, [], []), 2, 1, 24, 24);
    RollBackRestores(o, 1);
    assert ActiveKind(o) == 0;
  }
}
