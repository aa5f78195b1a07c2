/** The credential object: three shared pools and the records that own their slices.
    Every operation is shown to be the named update of the store it represents. */
module Credentials {
  import opened Bytes
  import opened Limits
  import opened SlicePools
  import opened CredentialStore
  import opened KeyBlockRotation
  import opened KeySets
  import opened CredentialCommands
  import opened KeyChecks
  import opened CredentialMaps

  function OwnedAt(counts: seq<Keyed>, keys: seq<seq<byte>>, meta: seq<seq<byte>>): (o: seq<Owned>)
    requires |counts| == |keys| == |meta|
    ensures |o| == |counts|
  {
    seq(|counts|, a requires 0 <= a < |counts| => Owned(counts[a], keys[a], meta[a]))
  }

  lemma OwnedUpdate(counts: seq<Keyed>, keys: seq<seq<byte>>, meta: seq<seq<byte>>, a: nat, o: Owned)
    requires |counts| == |keys| == |meta| && a < |counts|
    ensures OwnedAt(counts[a := o.k], keys[a := o.keys], meta[a := o.meta]) == OwnedAt(counts, keys, meta)[a := o]
  {
  }

  /** What a credential holds before the PICC has its key. */
  function EmptyStore(): Store
  {
    Store(seq(MAX_APPS, i => Owned(BLANK, [], [])) + [Owned(PICC_DEFAULT, [], [])], [], [])
  }

  /** How far the loop that drops an application's files has come: the first `done` of `all`
      have been gone through, and `i` of them are left. */
  predicate Dropping(all: seq<File>, files: seq<File>, done: nat, i: nat, a: nat)
  {
    done <= |all| && i == |DropOwner(all[..done], a)| && files == DropOwner(all[..done], a) + all[done..]
  }

  lemma DropNothing(all: seq<File>, a: nat)
    ensures Dropping(all, all, 0, 0, a)
  {
  }

  /** One turn of the loop. */
  lemma DropStep(all: seq<File>, files: seq<File>, done: nat, i: nat, a: nat)
    requires Dropping(all, files, done, i, a) && i < |files|
    ensures done < |all|
    ensures files[i].info.owner == a ==> Dropping(all, files[..i] + files[i + 1..], done + 1, i, a)
    ensures files[i].info.owner != a ==> Dropping(all, files[i := Renumbered(files[i], a)], done + 1, i + 1, a)
  {
    hide Renumbered;
    assert all[..done + 1] == all[..done] + [all[done]];
    DropOwnerAppend(all[..done], all[done], a);
    assert files[i] == all[done];
  }

  lemma DroppedAll(all: seq<File>, files: seq<File>, done: nat, i: nat, a: nat)
    requires Dropping(all, files, done, i, a) && i >= |files|
    ensures files == DropOwner(all, a)
  {
    assert all[..done] == all;
  }

  /** Record `a` taken out, and a blank one put in behind the remaining `n - 1`. */
  function Closing<T>(s: seq<T>, a: nat, n: nat, blank: T): (r: seq<T>)
    requires a < n <= |s|
    ensures |r| == |s|
  {
    s[..a] + s[a + 1..n] + [blank] + s[n..]
  }

  lemma ClosedUp<T>(s: seq<T>, a: nat, n: nat, blank: T)
    requires a < n <= |s|
    ensures var gap := s[..a] + s[a + 1..];
            gap[..n - 1] + [blank] + gap[n - 1..] == Closing(s, a, n, blank)
  {
  }

  lemma OwnedClosing(counts: seq<Keyed>, keys: seq<seq<byte>>, meta: seq<seq<byte>>, a: nat, n: nat)
    requires |counts| == |keys| == |meta| && a < n <= |counts|
    ensures OwnedAt(Closing(counts, a, n, BLANK), Closing(keys, a, n, []), Closing(meta, a, n, []))
         == Closing(OwnedAt(counts, keys, meta), a, n, Owned(BLANK, [], []))
  {
  }

  function FilesAt(infos: seq<FileRecord>, data: seq<seq<byte>>): (f: seq<File>)
    requires |infos| == |data|
    ensures |f| == |infos|
  {
    seq(|infos|, i requires 0 <= i < |infos| => File(infos[i], data[i]))
  }

  class Credential {
    const filePool: SlicePool
    const keyPool: SlicePool
    const metaPool: SlicePool
    /** Bookkeeping of every application record and, at PICC, of the PICC. */
    var counts: seq<Keyed>
    /** The AIDs of the created applications; their number is the application count. */
    var aids: seq<Aid>
    var infos: seq<FileRecord>

    ghost predicate PoolsOk()
      reads this, filePool, filePool.bytes, keyPool, keyPool.bytes, metaPool, metaPool.bytes
    {
      && filePool != keyPool && filePool != metaPool && keyPool != metaPool
      && filePool.bytes != keyPool.bytes && filePool.bytes != metaPool.bytes && keyPool.bytes != metaPool.bytes
      && filePool.Valid() && keyPool.Valid() && metaPool.Valid()
      && metaPool.bytes.Length == MetadataCapacity(keyPool.bytes.Length)
      && |keyPool.slots| == |metaPool.slots| == |counts| == MAX_APPS + 1
      && |filePool.slots| == |infos|
    }

    /** What the credential holds. */
    ghost function View(): (s: Store)
      reads this, filePool, filePool.bytes, keyPool, keyPool.bytes, metaPool, metaPool.bytes
      requires PoolsOk()
      ensures |s.keyed| == MAX_APPS + 1
    {
      Store(OwnedAt(counts, keyPool.Contents(), metaPool.Contents()), aids, FilesAt(infos, filePool.Contents()))
    }

    ghost predicate Valid()
      reads this, filePool, filePool.bytes, keyPool, keyPool.bytes, metaPool, metaPool.bytes
    {
      PoolsOk() && StoreOk(View())
    }

    /** The cleared credential: no applications or files, and one zero PICC key. */
    constructor (fileCapacity: nat, keyCapacity: nat)
      requires fileCapacity < POOL_NONE && 16 <= keyCapacity < POOL_NONE && MetadataCapacity(keyCapacity) < META_POOL_NONE
      ensures Valid() && View() == ClearedStore()
      ensures fresh(filePool) && fresh(filePool.bytes) && fresh(keyPool) && fresh(keyPool.bytes)
      ensures fresh(metaPool) && fresh(metaPool.bytes)
      ensures filePool.bytes.Length == fileCapacity && keyPool.bytes.Length == keyCapacity
    {
      filePool := new SlicePool(fileCapacity, POOL_NONE, 0);
      keyPool := new SlicePool(keyCapacity, POOL_NONE, MAX_APPS + 1);
      metaPool := new SlicePool(MetadataCapacity(keyCapacity), META_POOL_NONE, MAX_APPS + 1);
      counts := seq(MAX_APPS, i => BLANK) + [PICC_DEFAULT];
      aids, infos := [], [];
      new;
      hide PoolsOk;
      hide View;
      hide StoreOk;
      hide SlicePool.Valid;
      NothingStored();
      SeedPiccKey();
    }

    /** New pools without slices hold nothing. */
    lemma NothingStored()
      requires filePool != keyPool && filePool != metaPool && keyPool != metaPool
      requires filePool.bytes != keyPool.bytes && filePool.bytes != metaPool.bytes && keyPool.bytes != metaPool.bytes
      requires filePool.Valid() && keyPool.Valid() && metaPool.Valid()
      requires metaPool.bytes.Length == MetadataCapacity(keyPool.bytes.Length)
      requires keyPool.Contents() == seq(MAX_APPS + 1, i => []) && metaPool.Contents() == seq(MAX_APPS + 1, i => [])
      requires filePool.Contents() == seq(0, i => [])
      requires counts == seq(MAX_APPS, i => BLANK) + [PICC_DEFAULT] && aids == [] && infos == []
      ensures PoolsOk() && View() == EmptyStore()
    {
    }

    /** Gives the PICC of an empty credential its one key. */
    method SeedPiccKey()
      requires PoolsOk() && View() == EmptyStore() && 16 <= keyPool.bytes.Length && keyPool.used == 0
      modifies this`counts, keyPool, keyPool.bytes
      ensures Valid() && View() == ClearedStore()
    {
      hide Tiled;
      hide ContentsOf;
      hide StoreOk;
      assert keyPool.slots[PICC].length == |View().keyed[PICC].keys|;
      ghost var o := Owned(PICC_DEFAULT.(numKeys := 1, keyLen := 8, storageLen := 8), Zeros(16), []);
      OwnedUpdate(counts, keyPool.Contents(), metaPool.Contents(), PICC, o);
      assert metaPool.Contents()[PICC := View().keyed[PICC].meta] == metaPool.Contents();
      keyPool.Allocate(PICC, 16);
      counts := counts[PICC := counts[PICC].(numKeys := 1, keyLen := 8, storageLen := 8)];
      ClearedIsOk();
      assert View() == ClearedStore();
    }

    /** Gives up a record's keys and metadata. */
    method KeysRelease(a: nat)
      requires PoolsOk() && a <= MAX_APPS
      modifies this, keyPool, keyPool.bytes, metaPool, metaPool.bytes
      ensures PoolsOk() && aids == old(aids) && infos == old(infos)
      ensures counts == old(counts)[a := old(counts)[a].(numKeys := 0, keyLen := 0, storageLen := 0)]
      ensures keyPool.Contents() == old(keyPool.Contents())[a := []]
      ensures metaPool.Contents() == old(metaPool.Contents())[a := []]
      ensures keyPool.used == old(keyPool.used - keyPool.slots[a].length) && keyPool.slots[a].length == 0
      ensures metaPool.used == old(metaPool.used - metaPool.slots[a].length) && metaPool.slots[a].length == 0
    {
      hide Tiled;
      hide ContentsOf;
      counts := counts[a := counts[a].(numKeys := 0, keyLen := 0, storageLen := 0)];
      metaPool.Release(a);
      keyPool.Release(a);
    }

    /** Reserves storage for `reserved` keys and records the counts. A refusal changes
        nothing; the same footprint keeps the octets and the metadata. */
    method KeysResizeTotal(a: nat, numKeys: nat, reserved: nat, keyLen: nat, storageLen: nat) returns (ok: bool)
      requires PoolsOk() && a <= MAX_APPS
      modifies this, keyPool, keyPool.bytes, metaPool, metaPool.bytes
      ensures PoolsOk() && aids == old(aids) && infos == old(infos)
      ensures ok == (numKeys <= MAX_KEYS && keyLen <= MAX_KEY_LEN && storageLen <= MAX_KEY_LEN && numKeys <= reserved
                     && old(keyPool.CanResize(a, reserved * Stride(storageLen))))
      ensures !ok ==> counts == old(counts) && keyPool.Contents() == old(keyPool.Contents()) && metaPool.Contents() == old(metaPool.Contents())
      ensures ok ==> var want := reserved * Stride(storageLen); var was := old(keyPool.Contents())[a];
                && counts == old(counts)[a := old(counts)[a].(numKeys := numKeys, keyLen := keyLen,
                                                              storageLen := if want == 0 then 0 else storageLen)]
                && keyPool.Contents() == old(keyPool.Contents())[a := Refilled(was, want)]
                && metaPool.Contents() == (if |was| == want && want > 0 then old(metaPool.Contents())
                                           else old(metaPool.Contents())[a := []])
      ensures metaPool.used - metaPool.slots[a].length == old(metaPool.used - metaPool.slots[a].length)
    {
      hide Tiled;
      hide ContentsOf;
      ghost var was := keyPool.Contents();
      keyPool.SliceWithinUsed(a);
      if numKeys > MAX_KEYS { return false; }
      if keyLen > MAX_KEY_LEN || storageLen > MAX_KEY_LEN { return false; }
      if reserved < numKeys { return false; }
      var stride := Stride(storageLen);
      var want: nat := reserved * stride;
      if reserved > keyPool.bytes.Length / stride {
        assert want > keyPool.bytes.Length;
        return false;
      }
      if !keyPool.CanResize(a, want) { return false; }
      if keyPool.slots[a].length == want && want > 0 {
        counts := counts[a := counts[a].(numKeys := numKeys, keyLen := keyLen, storageLen := storageLen)];
        return true;
      }
      KeysRelease(a);
      keyPool.Allocate(a, want);
      counts := counts[a := counts[a].(numKeys := numKeys, keyLen := keyLen,
                                       storageLen := if want == 0 then 0 else storageLen)];
      assert Refilled(was[a], want) == Zeros(want);
      return true;
    }

    /** Every record's bookkeeping agrees with its octets. */
    ghost predicate Accounted()
      reads this, filePool, filePool.bytes, keyPool, keyPool.bytes, metaPool, metaPool.bytes
    {
      PoolsOk() && forall a :: 0 <= a <= MAX_APPS ==> Consistent(View().keyed[a])
    }

    /** One key set of `numKeys` keys; any metadata is given up. */
    method KeysResize(a: nat, numKeys: nat, keyLen: nat) returns (ok: bool)
      requires Accounted() && a <= MAX_APPS
      modifies this, keyPool, keyPool.bytes, metaPool, metaPool.bytes
      ensures Accounted() && aids == old(aids) && infos == old(infos)
      ensures ok == (numKeys <= MAX_KEYS && keyLen <= MAX_KEY_LEN && old(keyPool.CanResize(a, numKeys * Stride(keyLen))))
      ensures View() == if ok then old(View()).(keyed := old(View()).keyed[a := KeysResized(old(View()).keyed[a], numKeys, keyLen)])
                        else old(View())
    {
      hide Tiled;
      hide ContentsOf;
      ghost var was := View();
      ghost var c, k, m := counts, keyPool.Contents(), metaPool.Contents();
      ok := KeysResizeTotal(a, numKeys, numKeys, keyLen, keyLen);
      if !ok { return; }
      counts := counts[a := counts[a].(numKeySets := 1, maxKeySize := 0, setSettings := 0)];
      metaPool.Release(a);
      ghost var o := KeysResized(was.keyed[a], numKeys, keyLen);
      assert counts == c[a := o.k];
      assert metaPool.Contents() == m[a := o.meta];
      assert keyPool.Contents() == k[a := o.keys];
      OwnedUpdate(c, k, m, a, o);
    }

    /** Replaces a record's metadata by that of freshly initialised sets. */
    method ResetMetadata(a: nat, numKeySets: nat, numKeys: nat)
      requires metaPool.Valid() && a < |metaPool.slots|
      requires MIN_KEY_SETS <= numKeySets <= MAX_KEY_SETS && 0 < numKeys <= MAX_KEYS
      requires metaPool.CanResize(a, MetadataLength(numKeySets, numKeys))
      modifies metaPool, metaPool.bytes
      ensures metaPool.Valid() && metaPool.Contents() == old(metaPool.Contents())[a := InitialMetadata(numKeySets, numKeys)]
    {
      hide SlicePool.Valid;
      hide MetadataLength;
      hide InitialMetadata;
      hide Pow2;
      hide Overwritten;
      FreshMetadata(numKeySets, numKeys);
      metaPool.Release(a);
      metaPool.Allocate(a, MetadataLength(numKeySets, numKeys));
      var mask := FullMask(numKeySets);
      metaPool.Store(a, 2 * numKeySets, [mask % 256, mask / 256]);
    }

    /** Several key sets. The request is refused only for lack of key-pool room, never
        of metadata room, and a refusal changes nothing. */
    method KeySetsResize(a: nat, numKeySets: nat, numKeys: nat, activeLen: nat, maxKeySize: nat) returns (ok: bool)
      requires Accounted() && a < MAX_APPS
      modifies this, keyPool, keyPool.bytes, metaPool, metaPool.bytes
      ensures Accounted() && aids == old(aids) && infos == old(infos)
      ensures ok == (MIN_KEY_SETS <= numKeySets <= MAX_KEY_SETS && 0 < numKeys <= MAX_KEYS
                     && activeLen <= MAX_KEY_LEN && maxKeySize <= MAX_KEY_LEN
                     && old(keyPool.CanResize(a, SetsFootprint(numKeySets, numKeys, maxKeySize))))
      ensures !ok ==> View() == old(View())
      ensures ok ==> View() == old(View()).(keyed := old(View()).keyed[a :=
        KeySetsResized(old(View()).keyed[a], numKeySets, numKeys, activeLen, maxKeySize)])
    {
      hide PoolsOk;
      hide View;
      hide Consistent;
      hide KeySetsResized;
      if numKeySets < MIN_KEY_SETS || numKeySets > MAX_KEY_SETS { return false; }
      var metadataLen := MetadataLength(numKeySets, numKeys);
      MetadataNeeded(numKeySets, numKeys);
      hide MetadataLength;
      if metadataLen == 0 { return false; }
      ghost var was := View();
      AccountedAt(a);
      MetadataRoom(a, numKeySets, numKeys, maxKeySize);
      ok := MetadataCanResize(a, metadataLen);
      if !ok { return; }
      ok := InstallSets(a, numKeySets, numKeys, activeLen, maxKeySize);
      if !ok { return; }
      KeySetsResizedConsistent(was.keyed[a], numKeySets, numKeys, activeLen, maxKeySize);
      assert forall i :: 0 <= i <= MAX_APPS && i != a ==> View().keyed[i] == was.keyed[i];
    }

    method MetadataCanResize(a: nat, want: nat) returns (ok: bool)
      requires PoolsOk() && a <= MAX_APPS
      ensures a < |metaPool.slots| && ok == metaPool.CanResize(a, want)
    {
      ok := metaPool.CanResize(a, want);
    }

    /** Reserves the keys of several sets and then their metadata. */
    method InstallSets(a: nat, numKeySets: nat, numKeys: nat, activeLen: nat, maxKeySize: nat) returns (ok: bool)
      requires PoolsOk() && a < MAX_APPS
      requires MIN_KEY_SETS <= numKeySets <= MAX_KEY_SETS && 0 < numKeys <= MAX_KEYS
      requires metaPool.CanResize(a, MetadataLength(numKeySets, numKeys))
      modifies this, keyPool, keyPool.bytes, metaPool, metaPool.bytes
      ensures PoolsOk() && aids == old(aids) && infos == old(infos)
      ensures ok == (activeLen <= MAX_KEY_LEN && maxKeySize <= MAX_KEY_LEN
                     && old(keyPool.CanResize(a, SetsFootprint(numKeySets, numKeys, maxKeySize))))
      ensures View() == if ok then WithKeys(old(View()), a,
                                            KeySetsResized(old(View()).keyed[a], numKeySets, numKeys, activeLen, maxKeySize))
                        else old(View())
    {
      hide Tiled;
      hide ContentsOf;
      hide MetadataLength;
      hide InitialMetadata;
      ghost var o := KeySetsResized(View().keyed[a], numKeySets, numKeys, activeLen, maxKeySize);
      ghost var c, k, m := counts, keyPool.Contents(), metaPool.Contents();
      AtLeastOnce(numKeys, numKeySets);
      ok := KeysResizeTotal(a, numKeys, numKeys * numKeySets, activeLen, maxKeySize);
      if !ok { return; }
      ResetMetadata(a, numKeySets, numKeys);
      counts := counts[a := counts[a].(numKeySets := numKeySets, maxKeySize := maxKeySize)];
      assert metaPool.Contents() == m[a := o.meta];
      OwnedUpdate(c, k, m, a, o);
    }

    /** Where the keys of a key-set request fit, its metadata fits too. */
    lemma MetadataRoom(a: nat, numKeySets: nat, numKeys: nat, keyLen: nat)
      requires Accounted() && a <= MAX_APPS
      requires MIN_KEY_SETS <= numKeySets && 0 < numKeys
      ensures keyPool.CanResize(a, SetsFootprint(numKeySets, numKeys, keyLen)) ==>
                metaPool.CanResize(a, MetadataLength(numKeySets, numKeys))
    {
      var want := SetsFootprint(numKeySets, numKeys, keyLen);
      if keyPool.CanResize(a, want) {
        forall i | 0 <= i <= MAX_APPS
          ensures 32 * metaPool.slots[i].length <= 7 * keyPool.slots[i].length
        {
          assert Consistent(View().keyed[i]);
          RecordRatio(View().keyed[i]);
        }
        MetadataRatio(numKeySets, numKeys, keyLen);
        MetadataFits(metaPool.slots, keyPool.slots, a, keyPool.bytes.Length, want, MetadataLength(numKeySets, numKeys));
      }
    }

    // ---- Rolling key sets -----------------------------------------------------------

    /** One rotation of an application's set metadata, in place. */
    method RotateKeySetMetadata(a: nat)
      requires PoolsOk() && a < MAX_APPS && HasSets(View().keyed[a])
      modifies this, metaPool.bytes
      ensures PoolsOk() && aids == old(aids) && infos == old(infos)
      ensures View() == WithKeys(old(View()), a, View().keyed[a]) && HasSets(View().keyed[a])
      ensures InfosMoved(old(View()).keyed[a], View().keyed[a], 1)
    {
      hide Tiled;
      hide ContentsOf;
      hide HasSets;
      hide RotatedRecord;
      hide InfosMoved;
      ghost var o := View().keyed[a];
      ghost var c, k, all := counts, keyPool.Contents(), metaPool.Contents();
      HasSetsShape(o);
      RotatedParts(o);
      MovedByOne(o);
      var s, n := counts[a].numKeySets, counts[a].numKeys;
      hide Pack;
      hide Rotated;
      hide Unpack;
      hide PackedOk;
      var meta, versions := metaPool.Octets(a), counts[a].versions;
      ghost var o' := RotatedRecord(o);
      RotateMetadataBytes(a, s, versions[..n]);
      var base := 2 * s + 2;
      counts := counts[a := counts[a].(versions := meta[base..][..n] + versions[n..])];
      assert k[a := o'.keys] == k;
      OwnedUpdate(c, k, all, a, o');
    }

    method RotateMetadataBytes(a: nat, s: nat, first: seq<byte>)
      requires metaPool.Valid() && a < |metaPool.slots|
      requires 2 * s + 2 <= |metaPool.Contents()[a]| && PackedOk(Unpack(metaPool.Contents()[a], s), s, |first|)
      modifies metaPool.bytes
      ensures metaPool.Valid()
      ensures metaPool.Contents() == old(metaPool.Contents())[a := Pack(Rotated(first, Unpack(old(metaPool.Contents())[a], s)))]
    {
      hide Overwritten;
      hide SlicePool.Valid;
      hide Pow2;
      ghost var all := metaPool.Contents();
      var meta := metaPool.Octets(a);
      PackUnpack(meta, s);
      InPlaceRotation(first, Unpack(meta, s));
      hide Pack;
      hide Rotated;
      var mask := RotatedMask(MaskOf(meta, s), s);
      var base, n := 2 * s + 2, |first|;
      MoveTail(a, base, first);
      RotateHead(a, s, mask);
      assert metaPool.Contents() == all[a := metaPool.Contents()[a]];
    }

    /** Closes up the key versions behind `base` and puts `first` at the end. */
    method MoveTail(a: nat, base: nat, first: seq<byte>)
      requires metaPool.Valid() && a < |metaPool.slots| && base + |first| <= metaPool.slots[a].length
      modifies metaPool.bytes
      ensures metaPool.Valid()
      ensures |old(metaPool.Contents())[a]| == metaPool.slots[a].length
      ensures metaPool.Contents() == old(metaPool.Contents())[a := TailMoved(old(metaPool.Contents())[a], base, first)]
    {
      hide Overwritten;
      hide SlicePool.Valid;
      var meta := metaPool.Octets(a);
      metaPool.Store(a, base, meta[base + |first|..]);
      metaPool.Store(a, |meta| - |first|, first);
    }

    /** Moves the set versions and types up by one and stores the new mask. */
    method RotateHead(a: nat, s: nat, mask: nat)
      requires metaPool.Valid() && a < |metaPool.slots| && mask < 65536
      requires 0 < s && 2 * s + 2 <= metaPool.slots[a].length
      modifies metaPool.bytes
      ensures metaPool.Valid()
      ensures |old(metaPool.Contents())[a]| == metaPool.slots[a].length
      ensures metaPool.Contents() == old(metaPool.Contents())[a := HeadMoved(old(metaPool.Contents())[a], s, [mask % 256, mask / 256])]
    {
      hide Overwritten;
      hide MovedUp;
      hide SlicePool.Valid;
      ghost var all := metaPool.Contents();
      MoveUp(a, 0, s);
      MoveUp(a, s, s);
      metaPool.Store(a, 2 * s, [mask % 256, mask / 256]);
    }

    method MoveUp(a: nat, at: nat, s: nat)
      requires metaPool.Valid() && a < |metaPool.slots| && 0 < s && at + s <= metaPool.slots[a].length
      modifies metaPool.bytes
      ensures metaPool.Valid()
      ensures |old(metaPool.Contents())[a]| == metaPool.slots[a].length
      ensures metaPool.Contents() == old(metaPool.Contents())[a := MovedUp(old(metaPool.Contents())[a], at, s)]
    {
      hide Overwritten;
      hide SlicePool.Valid;
      var meta := metaPool.Octets(a);
      metaPool.Store(a, at, meta[at + 1..at + s]);
      metaPool.Store(a, at + s - 1, [meta[at]]);
    }

    /** Rotates an application's key blocks by `shift` places. */
    method RotateKeys(a: nat, count: nat, width: nat, shift: nat)
      requires PoolsOk() && a < MAX_APPS && 0 < count
      requires count * width == keyPool.slots[a].length > 0
      modifies keyPool.bytes
      ensures PoolsOk()
      ensures var was, now := old(keyPool.Contents()), keyPool.Contents();
        && |was[a]| == |now[a]| == count * width
        && now == was[a := now[a]]
        && Blocks(now[a], 0, width, count) == RotateLeft(Blocks(was[a], 0, width, count), shift)
    {
      hide RotateLeft;
      hide Blocks;
      assert InBounds(keyPool.slots[a], keyPool.used, keyPool.none);
      var base := keyPool.slots[a].offset;
      BlocksOfSlice(keyPool.bytes[..], base, width, count, keyPool.Octets(a));
      RotateKeyBlocksLeft(keyPool.bytes, base, count, width, shift);
      EditedSlice(old(keyPool.bytes[..]), keyPool.bytes[..], keyPool.slots, keyPool.used, keyPool.none, a);
      BlocksOfSlice(keyPool.bytes[..], base, width, count, keyPool.Octets(a));
    }

    /** Makes set `r` the active one: set `j` then holds what set `(j + r) mod s` held,
        in keys, key versions, set version, type and initialised bit. */
    method RollKeySet(a: nat, r: nat) returns (ok: bool)
      requires Accounted() && a < MAX_APPS
      modifies this, keyPool.bytes, metaPool.bytes
      ensures Accounted() && aids == old(aids) && infos == old(infos)
      ensures ok == (HasSets(old(View()).keyed[a]) && 0 < r < old(View()).keyed[a].k.numKeySets)
      ensures !ok ==> View() == old(View())
      ensures ok ==> IsRolled(old(View()).keyed[a], View().keyed[a], r)
      ensures ok ==> View() == WithKeys(old(View()), a, Rolled(old(View()).keyed[a], r))
    {
      hide PoolsOk;
      hide View;
      hide Followed;
      hide BlocksMoved;
      hide InfosMoved;
      hide IsRolled;
      hide Rolled;
      ghost var o := View().keyed[a];
      CountsSeen(a);
      if r == 0 || r >= counts[a].numKeySets { return false; }
      if counts[a].numKeys == 0 { return false; }
      AccountedAt(a);
      RollBlocks(a, r);
      ghost var mid := View().keyed[a];
      RollMetadata(a, r);
      ghost var turned := View().keyed[a];
      RollSteps(o, mid, turned, r);
      RollUnique(o, Followed(turned), Rolled(o, r), r);
      FollowActiveSet(a);
      RolledConsistent(o, r);
      ok := true;
    }

    lemma ValidIsAccounted()
      requires Valid()
      ensures Accounted() && |aids| <= MAX_APPS
    {
    }

    lemma AccountedAt(a: nat)
      requires Accounted() && a <= MAX_APPS
      ensures Consistent(View().keyed[a])
    {
    }

    /** A roll by `r` and one by what is left to a full turn restore every set. They restore
        the whole credential exactly when the application's key length and type bits were
        those of its active set. */
    method RollAndBack(a: nat, r: nat) returns (ok: bool)
      requires Accounted() && a < MAX_APPS
      modifies this, keyPool.bytes, metaPool.bytes
      ensures Accounted()
      ensures ok == (HasSets(old(View()).keyed[a]) && 0 < r < old(View()).keyed[a].k.numKeySets)
      ensures !ok ==> View() == old(View())
      ensures ok ==> View() == WithKeys(old(View()), a, Followed(old(View()).keyed[a]))
      ensures ok ==> HasSets(View().keyed[a]) && Sets(View().keyed[a]) == Sets(old(View()).keyed[a])
      ensures ok ==> (View() == old(View()) <==> TypeFollows(old(View()).keyed[a]))
    {
      hide PoolsOk;
      hide View;
      hide HasSets;
      hide Sets;
      hide IsRolled;
      hide Rolled;
      ghost var was := View();
      ghost var o := was.keyed[a];
      CountsSeen(a);
      var sets := counts[a].numKeySets;
      ok := RollKeySet(a, r);
      if !ok { return; }
      RolledShape(o, r);
      var again := RollKeySet(a, sets - r);
      assert again;
      RollBackRestores(o, r);
      FollowedKeeps(o);
      assert View() == WithKeys(was, a, Followed(o)) && WithKeys(was, a, o) == was;
      assert View().keyed[a] == Followed(o);
    }

    lemma AidsSeen()
      requires PoolsOk()
      ensures View().aids == aids
    {
    }

    lemma CountsSeen(a: nat)
      requires PoolsOk() && a <= MAX_APPS
      ensures a < |counts| && View().keyed[a].k == counts[a]
    {
    }

    /** Rotates the set metadata `r` times. */
    method RollMetadata(a: nat, r: nat)
      requires PoolsOk() && a < MAX_APPS && HasSets(View().keyed[a])
      modifies this, metaPool.bytes
      ensures PoolsOk() && aids == old(aids) && infos == old(infos)
      ensures View() == WithKeys(old(View()), a, View().keyed[a])
      ensures InfosMoved(old(View()).keyed[a], View().keyed[a], r)
    {
      hide PoolsOk;
      hide View;
      hide HasSets;
      ghost var o := View().keyed[a];
      assert InfosMoved(o, o, 0) by { RotateNone(InfosOf(o)); }
      assert View().keyed[a := o] == View().keyed;
      var rotation := 0;
      hide InfosMoved;
      while rotation < r
        invariant 0 <= rotation <= r && PoolsOk() && aids == old(aids) && infos == old(infos)
        invariant View() == WithKeys(old(View()), a, View().keyed[a]) && HasSets(View().keyed[a])
        invariant InfosMoved(o, View().keyed[a], rotation)
      {
        ghost var now := View().keyed[a];
        RotateKeySetMetadata(a);
        InfosMovedAgain(o, now, View().keyed[a], rotation);
        rotation := rotation + 1;
      }
    }

    /** Moves the key blocks of an application by `r` sets. */
    method RollBlocks(a: nat, r: nat)
      requires PoolsOk() && a < MAX_APPS && HasSets(View().keyed[a])
      modifies keyPool.bytes
      ensures PoolsOk()
      ensures View() == WithKeys(old(View()), a, View().keyed[a]) && HasSets(View().keyed[a])
      ensures BlocksMoved(old(View()).keyed[a], View().keyed[a], r)
    {
      hide Tiled;
      hide ContentsOf;
      hide HasSets;
      hide BlocksMoved;
      hide RotateLeft;
      hide Blocks;
      ghost var o := View().keyed[a];
      ghost var k := keyPool.Contents();
      HasSetsShape(o);
      var s, n := counts[a].numKeySets, counts[a].numKeys;
      AtLeastOnce(s, n);
      RotateKeys(a, s * n, Stride(counts[a].storageLen), BlockShift(r, n));
      ghost var o' := o.(keys := keyPool.Contents()[a]);
      BlocksRotated(o, o'.keys, r);
      OwnedUpdate(counts, k, metaPool.Contents(), a, o');
      assert counts[a := o'.k] == counts && metaPool.Contents()[a := o'.meta] == metaPool.Contents();
    }

    /** Takes key length and type from the set that is now active. */
    method FollowActiveSet(a: nat)
      requires PoolsOk() && a < MAX_APPS && HasSets(View().keyed[a])
      modifies this`counts
      ensures PoolsOk() && View() == WithKeys(old(View()), a, Followed(old(View()).keyed[a]))
    {
      hide Tiled;
      hide ContentsOf;
      hide HasSets;
      ghost var o := View().keyed[a];
      HasSetsShape(o);
      var kind := metaPool.Octets(a)[counts[a].numKeySets];
      OwnedUpdate(counts, keyPool.Contents(), metaPool.Contents(), a, Followed(o));
      assert keyPool.Contents()[a := o.keys] == keyPool.Contents() && metaPool.Contents()[a := o.meta] == metaPool.Contents();
      counts := counts[a := counts[a].(keyLen := SetKeyLength(kind), settings2 := SettingsFor(counts[a].settings2, kind))];
    }

    // ---- Files ----------------------------------------------------------------------

    method FindFileIndex(owner: nat, number: byte) returns (i: nat)
      requires PoolsOk()
      ensures i == FindFile(View().files, owner, number)
    {
      i := 0;
      while i < |infos|
        invariant i <= |infos|
        invariant forall j :: 0 <= j < i ==> !SameFile(View().files[j], owner, number)
      {
        assert View().files[i].info == infos[i];
        if infos[i].owner == owner && infos[i].number == number { return; }
        i := i + 1;
      }
    }

    method FileLength(i: nat) returns (length: nat)
      requires PoolsOk() && i < |infos|
      ensures i < |View().files| && length == |View().files[i].data|
    {
      length := filePool.slots[i].length;
    }

    method AddFile(info: FileRecord)
      requires PoolsOk()
      modifies this, filePool
      ensures PoolsOk() && counts == old(counts) && aids == old(aids)
      ensures View() == old(View()).(files := old(View()).files + [File(info, [])])
    {
      hide Tiled;
      hide ContentsOf;
      ghost var was := View().files;
      filePool.InsertRecord(|infos|);
      infos := infos + [info];
      assert View().files == was + [File(info, [])];
    }

    /** Releases the data of file `i` and closes the gap in the file list. */
    method RemoveFileAt(i: nat)
      requires PoolsOk() && i < |infos|
      modifies this, filePool, filePool.bytes
      ensures PoolsOk() && counts == old(counts) && aids == old(aids)
      ensures View() == old(View()).(files := old(View()).files[..i] + old(View()).files[i + 1..])
    {
      hide Tiled;
      hide ContentsOf;
      ghost var was := View().files;
      filePool.Release(i);
      filePool.RemoveRecord(i);
      infos := infos[..i] + infos[i + 1..];
      assert View().files == was[..i] + was[i + 1..];
    }

    method SetFileInfo(i: nat, info: FileRecord)
      requires PoolsOk() && i < |infos|
      modifies this
      ensures PoolsOk() && counts == old(counts) && aids == old(aids)
      ensures View() == old(View()).(files := old(View()).files[i := old(View()).files[i].(info := info)])
    {
      hide Tiled;
      hide ContentsOf;
      ghost var was := View().files;
      infos := infos[i := info];
      assert View().files == was[i := was[i].(info := info)];
    }

    /** Resizes a file's slice; a refusal destroys nothing. */
    method FileResize(i: nat, length: nat) returns (ok: bool)
      requires PoolsOk() && i < |infos|
      modifies this, filePool, filePool.bytes
      ensures PoolsOk() && counts == old(counts) && aids == old(aids) && infos == old(infos)
      ensures ok == (length <= MAX_FILE_DATA && old(filePool.CanResize(i, length)))
      ensures filePool.used == if ok then old(filePool.used - filePool.slots[i].length) + length else old(filePool.used)
      ensures View() == if ok then old(View()).(files := old(View()).files[i :=
                          old(View()).files[i].(data := Refilled(old(View()).files[i].data, length))]) else old(View())
    {
      hide Tiled;
      hide ContentsOf;
      if length > MAX_FILE_DATA { return false; }
      ghost var was := View().files;
      ok := filePool.Resize(i, length);
      if ok {
        assert View().files == was[i := was[i].(data := Refilled(was[i].data, length))];
      }
    }

    method FileWrite(i: nat, at: nat, data: seq<byte>)
      requires PoolsOk() && i < |infos| && at + |data| <= |View().files[i].data|
      modifies filePool.bytes
      ensures PoolsOk() && filePool.used == old(filePool.used)
      ensures View() == old(View()).(files := old(View()).files[i :=
                          old(View()).files[i].(data := Overwritten(old(View()).files[i].data, at, data))])
    {
      hide Tiled;
      hide ContentsOf;
      ghost var was := View().files;
      filePool.Store(i, at, data);
      assert View().files == was[i := was[i].(data := Overwritten(was[i].data, at, data))];
    }

    /** Brings file `i` to its full size: in place when its slice is the last one, and
        otherwise by way of `scratch`. Both ways have the same effect. */
    method MaterializeFile(i: nat, scratch: array<byte>) returns (ok: bool)
      requires PoolsOk() && i < |infos|
      requires scratch != filePool.bytes && scratch != keyPool.bytes && scratch != metaPool.bytes
      modifies this, filePool, filePool.bytes, scratch
      ensures PoolsOk() && counts == old(counts) && aids == old(aids)
      ensures var free := old(FreeRoom()); var f := old(View()).files[i];
        && View() == old(View()).(files := old(View()).files[i := MaterializedFile(f, free, scratch.Length).0])
        && ok == MaterializedFile(f, free, scratch.Length).1
        && FreeRoom() == RoomAfter(f, free, scratch.Length)
    {
      hide PoolsOk;
      hide View;
      hide Padded;
      ghost var was := View().files;
      FileInfos();
      assert was[i := was[i]] == was;
      if !IsSized(infos[i]) { return true; }
      var want := FullSize(infos[i]);
      var known := FileLength(i);
      FileWithinPool(i);
      hide FullSize;
      if known >= want {
        SetFileInfo(i, infos[i].(complete := true));
        return true;
      }
      if known > scratch.Length { return false; }
      ok := GrowFile(i, want, scratch);
      if !ok { return; }
      FileInfos();
      SetFileInfo(i, infos[i].(complete := true));
    }

    lemma FileWithinPool(i: nat)
      requires PoolsOk() && i < |infos|
      ensures filePool.used <= filePool.bytes.Length && |View().files[i].data| <= filePool.used
    {
      filePool.SliceWithinUsed(i);
    }

    /** Lengthens file `i` with zeros, in place when its slice is the last one. */
    method GrowFile(i: nat, want: nat, scratch: array<byte>) returns (ok: bool)
      requires PoolsOk() && i < |infos| && |View().files[i].data| <= scratch.Length && |View().files[i].data| < want
      requires scratch != filePool.bytes && scratch != keyPool.bytes && scratch != metaPool.bytes
      modifies this, filePool, filePool.bytes, scratch
      ensures PoolsOk() && counts == old(counts) && aids == old(aids) && infos == old(infos)
      ensures var f := old(View()).files[i];
        && ok == (want <= MAX_FILE_DATA && want - |f.data| <= filePool.bytes.Length - old(filePool.used))
        && View() == (if ok then old(View()).(files := old(View()).files[i := f.(data := Padded(f.data, want))]) else old(View()))
        && filePool.used == old(filePool.used) + (if ok then want - |f.data| else 0)
    {
      hide Tiled;
      hide ContentsOf;
      ghost var f := View().files[i];
      var known := filePool.slots[i].length;
      filePool.SliceWithinUsed(i);
      if known > 0 && filePool.slots[i].offset + known == filePool.used && want <= MAX_FILE_DATA
         && want - known <= filePool.bytes.Length - filePool.used {
        GrowLast(i, want - known);
        assert f.data + Zeros(want - known) == Padded(f.data, want);
        return true;
      }
      filePool.Read(i, scratch);
      ok := FileResize(i, want);
      if !ok { return; }
      assert scratch[..known] == f.data;
      FileWrite(i, 0, scratch[..known]);
      ghost var grown := f.(data := Padded(f.data, want));
      assert Overwritten(Zeros(want), 0, f.data) == grown.data;
      assert View().files == old(View()).files[i := grown];
    }

    method GrowLast(i: nat, grow: nat)
      requires PoolsOk() && i < |infos| && filePool.slots[i].length > 0
      requires filePool.slots[i].offset + filePool.slots[i].length == filePool.used
      requires grow <= filePool.bytes.Length - filePool.used
      modifies filePool, filePool.bytes
      ensures PoolsOk() && filePool.used == old(filePool.used) + grow
      ensures var f := old(View()).files[i];
        View() == old(View()).(files := old(View()).files[i := f.(data := f.data + Zeros(grow))])
    {
      hide Tiled;
      hide ContentsOf;
      ghost var was := View().files;
      filePool.GrowInPlace(i, grow);
      assert View().files == was[i := was[i].(data := was[i].data + Zeros(grow))];
    }

    /** Brings every file to its full size, in order. */
    method MaterializeContents(scratch: array<byte>) returns (complete: bool)
      requires PoolsOk()
      requires scratch != filePool.bytes && scratch != keyPool.bytes && scratch != metaPool.bytes
      modifies this, filePool, filePool.bytes, scratch
      ensures PoolsOk() && (old(Valid()) ==> Valid())
      ensures var (files, all) := Materialized(old(View()).files, old(FreeRoom()), scratch.Length);
        View() == old(View()).(files := files) && complete == all
    {
      hide PoolsOk;
      hide View;
      hide MaterializedFile;
      hide RoomAfter;
      hide Materialized;
      hide Materializing;
      ghost var was := View();
      ghost var len := scratch.Length;
      ghost var whole := Materialized(was.files, FreeRoom(), len);
      MaterializeStart(was.files, FreeRoom(), len);
      FileInfos();
      complete := true;
      var i := 0;
      while i < |infos|
        invariant PoolsOk() && 0 <= i <= |infos| == |View().files| == |was.files|
        invariant View() == was.(files := View().files)
        invariant Materializing(was.files, View().files, i, FreeRoom(), len, complete, whole)
      {
        MaterializeStep(was.files, View().files, i, FreeRoom(), len, complete, whole);
        var ok := MaterializeFile(i, scratch);
        if !ok { complete := false; }
        FileInfos();
        i := i + 1;
      }
      MaterializeEnd(was.files, View().files, i, FreeRoom(), len, complete, whole);
      hide StoreOk;
      if StoreOk(was) { MaterializedKeepsOk(was, old(FreeRoom()), len); }
    }

    /** The octets of the file pool no file has. */
    ghost function FreeRoom(): nat
      reads this, filePool, filePool.bytes, keyPool, keyPool.bytes, metaPool, metaPool.bytes
      requires PoolsOk()
    {
      filePool.bytes.Length - filePool.used
    }

    // ---- Applications --------------------------------------------------------------------

    /** Removes file `i` if application `a` owns it, and otherwise renumbers its owner. */
    method DropOrRenumber(i: nat, a: nat) returns (kept: bool)
      requires PoolsOk() && i < |View().files|
      modifies this, filePool, filePool.bytes
      ensures PoolsOk() && counts == old(counts) && aids == old(aids)
      ensures var was := old(View()).files;
        && kept == (was[i].info.owner != a)
        && View() == old(View()).(files := if kept then was[i := Renumbered(was[i], a)] else was[..i] + was[i + 1..])
    {
      FileInfos();
      hide PoolsOk;
      hide View;
      ghost var was := View().files;
      if infos[i].owner == a {
        RemoveFileAt(i);
        return false;
      }
      if infos[i].owner != PICC_OWNER && infos[i].owner > a {
        SetFileInfo(i, infos[i].(owner := infos[i].owner - 1));
      } else {
        assert was[i := was[i]] == was;
      }
      return true;
    }

    /** Removes the files of application `a` and renumbers the owners behind it. */
    method DropFilesOf(a: nat)
      requires PoolsOk()
      modifies this, filePool, filePool.bytes
      ensures PoolsOk() && counts == old(counts) && aids == old(aids)
      ensures View() == old(View()).(files := DropOwner(old(View()).files, a))
    {
      FileInfos();
      hide PoolsOk;
      hide View;
      hide DropOwner;
      hide Renumbered;
      hide Dropping;
      ghost var was := View();
      ghost var done: nat := 0;
      var i: nat := 0;
      DropNothing(was.files, a);
      while i < |infos|
        invariant PoolsOk() && counts == old(counts) && aids == old(aids) && |infos| == |View().files|
        invariant View() == was.(files := View().files) && Dropping(was.files, View().files, done, i, a)
        decreases |was.files| - done
      {
        DropStep(was.files, View().files, done, i, a);
        var kept := DropOrRenumber(i, a);
        if kept { i := i + 1; }
        done := done + 1;
        FileInfos();
      }
      DroppedAll(was.files, View().files, done, i, a);
    }

    lemma FileInfos()
      requires PoolsOk()
      ensures |infos| == |View().files|
      ensures forall j :: 0 <= j < |infos| ==> View().files[j].info == infos[j]
    {
    }

    method DeleteApplicationAt(a: nat)
      requires PoolsOk() && a < |aids| <= MAX_APPS
      modifies this, filePool, filePool.bytes, keyPool, keyPool.bytes, metaPool, metaPool.bytes
      ensures PoolsOk() && View() == ApplicationDeleted(old(View()), a)
    {
      hide Tiled;
      hide ContentsOf;
      hide DropOwner;
      hide OwnedAt;
      ghost var was := View();
      ghost var c, k, m := counts, keyPool.Contents(), metaPool.Contents();
      KeysRelease(a);
      assert View().files == was.files;
      DropFilesOf(a);
      CloseRecord(a);
      aids := aids[..a] + aids[a + 1..];
      assert Closing(c, a, |was.aids|, BLANK) == Closing(c[a := counts[a]], a, |was.aids|, BLANK);
      OwnedClosing(c, k, m, a, |was.aids|);
    }

    /** Closes the gap record `a`, which owns nothing, leaves in the record array. */
    method CloseRecord(a: nat)
      requires PoolsOk() && a < |aids| <= MAX_APPS
      requires keyPool.slots[a].length == 0 && metaPool.slots[a].length == 0
      modifies this, keyPool, metaPool
      ensures PoolsOk() && aids == old(aids) && infos == old(infos)
      ensures counts == Closing(old(counts), a, |aids|, BLANK)
      ensures keyPool.Contents() == Closing(old(keyPool.Contents()), a, |aids|, [])
      ensures metaPool.Contents() == Closing(old(metaPool.Contents()), a, |aids|, [])
    {
      hide Tiled;
      hide ContentsOf;
      var n := |aids|;
      ClosedUp(keyPool.Contents(), a, n, []);
      ClosedUp(metaPool.Contents(), a, n, []);
      keyPool.RemoveRecord(a);
      keyPool.InsertRecord(n - 1);
      metaPool.RemoveRecord(a);
      metaPool.InsertRecord(n - 1);
      counts := counts[..a] + counts[a + 1..n] + [BLANK] + counts[n..];
    }

    method CreateApplicationRecord(aid: Aid, settings1: byte, settings2: byte) returns (ok: bool)
      requires Valid()
      modifies this, keyPool, keyPool.bytes, metaPool, metaPool.bytes
      ensures PoolsOk()
      ensures ok == Accepts(old(View()), CreateApplication(aid, settings1, settings2), Room())
      ensures View() == Step(old(View()), CreateApplication(aid, settings1, settings2), Room())
      ensures ok ==> var o := View().keyed[|old(aids)|];
        && o.k.keyLen == (if settings2 / 64 == 1 then 24 else 16) && |o.keys| == (settings2 % 16) * o.k.keyLen
        && (Suits(o, true) <==> settings2 / 64 != 3)
    {
      hide PoolsOk;
      hide View;
      hide Consistent;
      hide KeysFit;
      AidsSeen();
      if |aids| >= MAX_APPS { return false; }
      if aid in aids { return false; }
      var numKeys := settings2 % 16;
      if numKeys == 0 || numKeys > MAX_KEYS { return false; }
      var n := |aids|;
      ghost var was := View();
      KeyRoom(n, numKeys * Stride(KeyLength(settings2)));
      BlankRecord(n);
      ok := KeysResize(n, numKeys, KeyLength(settings2));
      if !ok { return; }
      AidsSeen();
      NameApplication(aid, settings1, settings2);
      assert was.keyed[n := View().keyed[n]] == was.keyed[n := NewApplication(settings1, settings2)];
      CreatedSuits(settings1, settings2);
    }

    /** Resets a record that owns nothing. */
    method BlankRecord(n: nat)
      requires Valid() && |aids| <= n < MAX_APPS
      modifies this`counts
      ensures Accounted() && View() == old(View())
    {
      hide Tiled;
      hide ContentsOf;
      hide Consistent;
      ghost var was := View();
      assert was.keyed[n] == Owned(BLANK, [], []);
      counts := counts[n := BLANK];
      assert View() == was;
    }

    /** Names the record behind the created applications and counts it as one of them. */
    method NameApplication(aid: Aid, settings1: byte, settings2: byte)
      requires PoolsOk() && |aids| < MAX_APPS
      modifies this
      ensures PoolsOk()
      ensures var n, was := |old(aids)|, old(View());
        View() == was.(aids := was.aids + [aid], keyed := was.keyed[n := was.keyed[n].(k := was.keyed[n].k.(
          settings1 := settings1, settings2 := settings2, authCommand := AuthCommandFor(settings2)))])
    {
      hide Tiled;
      hide ContentsOf;
      var n := |aids|;
      ghost var o := View().keyed[n];
      ghost var named := o.(k := o.k.(settings1 := settings1, settings2 := settings2, authCommand := AuthCommandFor(settings2)));
      OwnedUpdate(counts, keyPool.Contents(), metaPool.Contents(), n, named);
      assert keyPool.Contents()[n := o.keys] == keyPool.Contents() && metaPool.Contents()[n := o.meta] == metaPool.Contents();
      aids := aids + [aid];
      counts := counts[n := counts[n].(settings1 := settings1, settings2 := settings2,
                                       authCommand := AuthCommandFor(settings2))];
    }

    method FormatCard()
      requires PoolsOk()
      modifies this, filePool, filePool.bytes, keyPool, keyPool.bytes, metaPool, metaPool.bytes
      requires View().keyed[PICC].meta == []
      ensures PoolsOk() && View() == Formatted(old(View()))
    {
      hide Tiled;
      hide ContentsOf;
      ghost var was := View();
      keyPool.KeepOnly(PICC);
      metaPool.Wipe(MAX_APPS + 1);
      counts := seq(MAX_APPS, i => BLANK) + [counts[PICC]];
      filePool.Wipe(0);
      aids, infos := [], [];
      assert View().keyed == Formatted(was).keyed;
    }

    // ---- Commands ------------------------------------------------------------------------

    /** The sizes of the file and key pools. */
    function Room(): Capacity
    {
      Capacity(filePool.bytes.Length, keyPool.bytes.Length)
    }

    /** The key pool holds what the records hold, so its room can be told from the store. */
    lemma KeyRoom(a: nat, want: nat)
      requires PoolsOk() && a <= MAX_APPS
      ensures keyPool.CanResize(a, want) <==> KeysFit(View(), a, want, Room())
    {
      KeyOctetsCounted(keyPool.slots, View().keyed);
    }

    lemma FileRoom(i: nat, want: nat)
      requires PoolsOk() && i < |infos|
      ensures filePool.CanResize(i, want) <==> FileOctets(View().files) - |View().files[i].data| + want <= filePool.bytes.Length
    {
      FileOctetsCounted(filePool.slots, View().files);
    }

    method ReleaseKeysOf(a: nat)
      requires PoolsOk() && a <= MAX_APPS
      modifies this, keyPool, keyPool.bytes, metaPool, metaPool.bytes
      ensures PoolsOk() && View() == WithKeys(old(View()), a, Released(old(View()).keyed[a]))
    {
      hide Tiled;
      hide ContentsOf;
      ghost var o := Released(View().keyed[a]);
      OwnedUpdate(counts, keyPool.Contents(), metaPool.Contents(), a, o);
      KeysRelease(a);
    }

    // The file commands, each accepted exactly when it is allowed and has room.

    method MakeFile(app: nat, number: byte) returns (ok: bool)
      requires Valid()
      modifies this, filePool, filePool.bytes
      ensures PoolsOk()
      ensures ok == Accepts(old(View()), CreateFile(app, number), Room())
      ensures View() == Step(old(View()), CreateFile(app, number), Room())
    {
      hide PoolsOk;
      hide View;
      hide StoreOk;
      hide Rolled;
      FileInfos();
      AidsSeen();
      if app >= |aids| { return false; }
      if |infos| >= MAX_FILES { return false; }
      var i := FindFileIndex(app, number);
      if i < |infos| { return false; }
      AddFile(NewFile(app, number).info);
      return true;
    }

    method DropFile(owner: nat, number: byte) returns (ok: bool)
      requires Valid()
      modifies this, filePool, filePool.bytes
      ensures PoolsOk()
      ensures ok == Accepts(old(View()), DeleteFile(owner, number), Room())
      ensures View() == Step(old(View()), DeleteFile(owner, number), Room())
    {
      hide PoolsOk;
      hide View;
      hide StoreOk;
      hide Rolled;
      FileInfos();
      AidsSeen();
      var i := FindFileIndex(owner, number);
      if i >= |infos| { return false; }
      RemoveFileAt(i);
      return true;
    }

    method SizeFile(owner: nat, number: byte, length: nat) returns (ok: bool)
      requires Valid()
      modifies this, filePool, filePool.bytes
      ensures PoolsOk()
      ensures ok == Accepts(old(View()), ResizeFile(owner, number, length), Room())
      ensures View() == Step(old(View()), ResizeFile(owner, number, length), Room())
    {
      hide PoolsOk;
      hide View;
      hide StoreOk;
      hide Rolled;
      FileInfos();
      AidsSeen();
      hide FileOctets;
      var i := FindFileIndex(owner, number);
      if i >= |infos| { return false; }
      FileRoom(i, length);
      ok := FileResize(i, length);
    }

    method PutFile(owner: nat, number: byte, at: nat, data: seq<byte>) returns (ok: bool)
      requires Valid()
      modifies this, filePool, filePool.bytes
      ensures PoolsOk()
      ensures ok == Accepts(old(View()), WriteFile(owner, number, at, data), Room())
      ensures View() == Step(old(View()), WriteFile(owner, number, at, data), Room())
    {
      hide PoolsOk;
      hide View;
      hide StoreOk;
      hide Rolled;
      FileInfos();
      AidsSeen();
      var i := FindFileIndex(owner, number);
      if i >= |infos| { return false; }
      var length := FileLength(i);
      if at + |data| > length { return false; }
      FileWrite(i, at, data);
      return true;
    }

    /** Runs one command on the keys of a record. */
    method ExecuteOnKeys(c: Command) returns (ok: bool)
      requires Valid() && (c.ResizeKeys? || c.ResizeKeySets? || c.RollKeySet? || c.ReleaseKeys?)
      modifies this, keyPool, keyPool.bytes, metaPool, metaPool.bytes
      ensures PoolsOk()
      ensures ok == Accepts(old(View()), c, Room())
      ensures View() == Step(old(View()), c, Room())
    {
      hide PoolsOk;
      hide View;
      hide StoreOk;
      hide Consistent;
      hide Rolled;
      hide IsRolled;
      hide KeysFit;
      hide SetsFootprint;
      AidsSeen();
      ValidIsAccounted();
      match c {
        case ResizeKeys(a, numKeys, keyLen) =>
          if a >= |aids| && a != PICC { return false; }
          KeyRoom(a, numKeys * Stride(keyLen));
          ok := KeysResize(a, numKeys, keyLen);
        case ResizeKeySets(a, numKeySets, numKeys, activeLen, maxKeySize) =>
          if a >= |aids| { return false; }
          KeyRoom(a, SetsFootprint(numKeySets, numKeys, maxKeySize));
          ok := KeySetsResize(a, numKeySets, numKeys, activeLen, maxKeySize);
        case RollKeySet(a, r) =>
          if a >= |aids| { return false; }
          ok := this.RollKeySet(a, r);
        case ReleaseKeys(a) =>
          if a >= |aids| && a != PICC { return false; }
          ReleaseKeysOf(a);
          return true;
      }
    }

    /** Runs one command. */
    method Perform(c: Command) returns (ok: bool)
      requires Valid()
      modifies this, filePool, filePool.bytes, keyPool, keyPool.bytes, metaPool, metaPool.bytes
      ensures Valid()
      ensures ok == Accepts(old(View()), c, Room())
      ensures View() == Step(old(View()), c, Room())
    {
      hide Tiled;
      hide ContentsOf;
      hide Consistent;
      hide KeysFit;
      ghost var was := View();
      match c {
        case CreateApplication(aid, settings1, settings2) => ok := CreateApplicationRecord(aid, settings1, settings2);
        case DeleteApplication(a) =>
          ok := a < |aids|;
          if ok {
            DeleteApplicationAt(a);
          }
        case FormatPicc =>
          FormatCard();
          ok := true;
        case CreateFile(app, number) => ok := MakeFile(app, number);
        case DeleteFile(owner, number) => ok := DropFile(owner, number);
        case ResizeFile(owner, number, length) => ok := SizeFile(owner, number, length);
        case WriteFile(owner, number, at, data) => ok := PutFile(owner, number, at, data);
        case _ => ok := ExecuteOnKeys(c);
      }
      if ok { EffectKeepsOk(was, c); }
    }

    /** Runs one command. It is accepted exactly when it is allowed and the pools have
        room; then the store takes the named effect, and otherwise nothing changes. A
        validated credential stays validated exactly under the command's condition. */
    method Execute(c: Command) returns (ok: bool)
      requires Valid()
      modifies this, filePool, filePool.bytes, keyPool, keyPool.bytes, metaPool, metaPool.bytes
      ensures Valid()
      ensures ok == Accepts(old(View()), c, Room())
      ensures View() == Step(old(View()), c, Room())
      ensures ok && Validated(old(View())) ==> (Validated(View()) <==> KeepsValidated(old(View()), c))
    {
      hide Validated, KeepsValidated, PoolsOk, Effect, Allowed, Fits, View;
      ghost var was := View();
      ok := Perform(c);
      if ok && Validated(was) { StepValidated(was, c); }
    }
  }

  /** Any run of commands on a cleared credential leaves the slices tiling their pools.
      Which commands are accepted and what the credential then holds are determined by the
      run and the pool sizes, and read as maps by AID and by file name it is what the
      accepted commands name. Key bookkeeping suits the keys throughout if each accepted
      command meets its condition. */
  method RunFromCleared(fileCapacity: nat, keyCapacity: nat, run: seq<Command>)
    returns (credential: Credential, accepted: seq<bool>)
    requires fileCapacity < POOL_NONE && 16 <= keyCapacity < POOL_NONE && MetadataCapacity(keyCapacity) < META_POOL_NONE
    ensures credential.Valid() && StoreOk(ClearedStore())
    ensures accepted == Acceptance(ClearedStore(), run, Capacity(fileCapacity, keyCapacity))
    ensures credential.View() == After(ClearedStore(), run, Capacity(fileCapacity, keyCapacity))
    ensures NamedRun(CardOf(ClearedStore()), [], run, accepted) == (CardOf(credential.View()), credential.aids)
    ensures (forall k: nat :: k < |run| ==> Keeps(ClearedStore(), run, Capacity(fileCapacity, keyCapacity), k)) ==>
      Validated(credential.View())
    ensures |credential.aids| <= 28 && |credential.View().files| <= 32
    ensures forall i :: 0 <= i < |credential.View().files| ==> |credential.View().files[i].data| <= 2048
  {
    hide Keeps, Validated;
    hide StoreOk;
    hide Effect;
    hide Allowed;
    hide Fits;
    hide Named;
    hide CardOf;
    hide Credential.PoolsOk;
    hide Credential.View;
    credential := new Credential(fileCapacity, keyCapacity);
    ghost var room := Capacity(fileCapacity, keyCapacity);
    accepted := [];
    var i := 0;
    while i < |run|
      invariant 0 <= i <= |run|
      invariant credential.Valid() && fresh(credential) && credential.Room() == room
      invariant fresh(credential.filePool) && fresh(credential.filePool.bytes) && fresh(credential.keyPool)
      invariant fresh(credential.keyPool.bytes) && fresh(credential.metaPool) && fresh(credential.metaPool.bytes)
      invariant accepted == Acceptance(ClearedStore(), run[..i], room)
      invariant credential.View() == After(ClearedStore(), run[..i], room)
    {
      var ok := credential.Execute(run[i]);
      assert run[..i + 1][..i] == run[..i];
      accepted := accepted + [ok];
      i := i + 1;
    }
    assert run[..i] == run;
    RunIsNamed(ClearedStore(), run, room);
    RunKeepsSmall(ClearedStore(), run, room);
    ClearedSuits();
    if forall k: nat :: k < |run| ==> Keeps(ClearedStore(), run, room, k) {
      FirstValidated(ClearedStore(), run, room, |run|);
      assert run[..|run|] == run;
    }
    credential.AidsSeen();
  }
}
