/** What a credential stores, free of where it is stored: applications and the PICC
    record own key material and key-set metadata, files own data. Each operation is a
    named update of this store, and the store is read as maps keyed by AID and by
    file owner and number. */
module CredentialStore {
  import opened Bytes
  import opened Limits
  import opened SlicePools

  const MAX_KEY_LEN: nat := 24
  /** The record index of the PICC's own keys, behind the application records. */
  const PICC: nat := MAX_APPS
  const POOL_NONE: nat := 0xFFFF_FFFF
  const META_POOL_NONE: nat := 0xFFFF

  type Aid = seq<byte>

  /** Key bookkeeping a record carries inline. */
  datatype Keyed = Keyed(numKeys: nat, keyLen: nat, storageLen: nat, numKeySets: nat, maxKeySize: nat,
                         setSettings: byte, settings1: byte, settings2: byte, authCommand: byte, versions: seq<byte>)

  const BLANK: Keyed := Keyed(0, 0, 0, 1, 0, 0, 0, 0, 0, Zeros(MAX_KEYS))

  const AUTHENTICATE_LEGACY: byte := 0x0A
  const AUTHENTICATE_ISO: byte := 0x1A
  const AUTHENTICATE_AES: byte := 0xAA

  /** The PICC's settings on a cleared credential. */
  const PICC_DEFAULT: Keyed := BLANK.(settings1 := 0x0F, settings2 := 1, authCommand := AUTHENTICATE_LEGACY)

  /** The authentication command a key type calls for. */
  function AuthCommandFor(settings2: byte): byte
  {
    if settings2 / 64 == 2 then AUTHENTICATE_AES
    else if settings2 / 64 == 1 then AUTHENTICATE_ISO
    else AUTHENTICATE_LEGACY
  }

  /** A record together with the octets it owns. */
  datatype Owned = Owned(k: Keyed, keys: seq<byte>, meta: seq<byte>)

  datatype FileRecord = FileRecord(owner: nat, number: byte, kind: byte, declaredSize: nat,
                                   recordSize: nat, recordCount: nat, complete: bool)

  datatype File = File(info: FileRecord, data: seq<byte>)

  /** What a credential holds, with no trace of where the pools keep it. `keyed` has
      one entry per application record, created or not, and the PICC's at the end. */
  datatype Store = Store(keyed: seq<Owned>, aids: seq<Aid>, files: seq<File>)

  // ---- Sizes ----------------------------------------------------------------------

  function MetadataLength(numKeySets: nat, numKeys: nat): nat
  {
    if numKeySets < MIN_KEY_SETS || numKeySets > MAX_KEY_SETS || numKeys == 0 || numKeys > MAX_KEYS then 0
    else 2 * numKeySets + 2 + (numKeySets - 1) * numKeys
  }

  /** The octets the keys of several sets take. */
  function SetsFootprint(numKeySets: nat, numKeys: nat, keyLen: nat): nat
  {
    numKeys * numKeySets * Stride(keyLen)
  }

  lemma MetadataNeeded(numKeySets: nat, numKeys: nat)
    requires MIN_KEY_SETS <= numKeySets <= MAX_KEY_SETS
    ensures MetadataLength(numKeySets, numKeys) > 0 <==> 0 < numKeys <= MAX_KEYS
  {
    assert (numKeySets - 1) * numKeys >= 0;
  }

  lemma AtLeastOnce(n: nat, times: nat)
    requires times > 0
    ensures n <= n * times
  {
    assert n * times == n + n * (times - 1);
  }

  /** The metadata pool size that goes with a key pool size. */
  function MetadataCapacity(keyCapacity: nat): nat
  {
    (keyCapacity / 32) * 7 + ((keyCapacity % 32) * 7 + 31) / 32
  }

  /** A record's inline bookkeeping agrees with the octets it owns. */
  predicate Consistent(o: Owned)
  {
    && |o.k.versions| == MAX_KEYS
    && o.k.numKeys <= MAX_KEYS
    && (o.k.numKeys == 0 ==> o.keys == [] && o.meta == [])
    && (o.k.numKeys > 0 && o.k.numKeySets < MIN_KEY_SETS ==>
          o.meta == [] && |o.keys| == o.k.numKeys * Stride(o.k.storageLen))
    && (o.k.numKeys > 0 && o.k.numKeySets >= MIN_KEY_SETS ==>
          && o.k.numKeySets <= MAX_KEY_SETS
          && |o.meta| == MetadataLength(o.k.numKeySets, o.k.numKeys)
          && 2 * o.k.numKeySets + 2 <= |o.meta|
          && MaskOf(o.meta, o.k.numKeySets) < Pow2(o.k.numKeySets)
          && |o.keys| == o.k.numKeys * o.k.numKeySets * Stride(o.k.storageLen))
  }

  /** One key and two sets is the worst ratio of metadata to key storage. */
  lemma MetadataRatio(numKeySets: nat, numKeys: nat, keyLen: nat)
    requires MIN_KEY_SETS <= numKeySets && 0 < numKeys
    ensures 32 * MetadataLength(numKeySets, numKeys) <= 7 * (numKeys * numKeySets * Stride(keyLen))
  {
    var area := numKeys * numKeySets;
    assert (numKeySets - 1) * numKeys == area - numKeys;
    assert area - numKeySets == (numKeys - 1) * numKeySets;
    assert area * Stride(keyLen) >= area * 16;
    assert 80 * area + 32 * numKeys >= 64 * numKeySets + 64 by {
      assert (numKeys - 1) * numKeySets >= 0;
    }
  }

  lemma RecordRatio(o: Owned)
    requires Consistent(o)
    ensures 32 * |o.meta| <= 7 * |o.keys|
  {
    if o.k.numKeys > 0 && o.k.numKeySets >= MIN_KEY_SETS {
      MetadataRatio(o.k.numKeySets, o.k.numKeys, o.k.storageLen);
    }
  }

  lemma {:induction false} TotalRatio(meta: seq<Slice>, keys: seq<Slice>)
    requires |meta| == |keys|
    requires forall i :: 0 <= i < |meta| ==> 32 * meta[i].length <= 7 * keys[i].length
    ensures 32 * TotalLength(meta) <= 7 * TotalLength(keys)
  {
    if meta != [] { TotalRatio(meta[1..], keys[1..]); }
  }

  /** Wherever the keys of record `a` fit, so does metadata in the right ratio. */
  lemma MetadataFits(meta: seq<Slice>, keys: seq<Slice>, a: nat, keyCapacity: nat, wantKeys: nat, wantMeta: nat)
    requires |meta| == |keys| && a < |meta|
    requires forall i :: 0 <= i < |meta| ==> 32 * meta[i].length <= 7 * keys[i].length
    requires 32 * wantMeta <= 7 * wantKeys
    requires wantKeys <= keyCapacity - (TotalLength(keys) - keys[a].length)
    ensures wantMeta <= MetadataCapacity(keyCapacity) - (TotalLength(meta) - meta[a].length)
  {
    TotalUpdate(keys, a, Slice(0, 0));
    TotalUpdate(meta, a, Slice(0, 0));
    TotalRatio(meta[a := Slice(0, 0)], keys[a := Slice(0, 0)]);
    CapacityRatio(keyCapacity);
  }

  /** The metadata pool is seven thirty-seconds of the key pool, rounded up. */
  lemma CapacityRatio(keyCapacity: nat)
    ensures 32 * MetadataCapacity(keyCapacity) >= 7 * keyCapacity > 32 * MetadataCapacity(keyCapacity) - 32
  {
  }

  // ---- The named updates --------------------------------------------------------------

  function Released(o: Owned): Owned
  {
    Owned(o.k.(numKeys := 0, keyLen := 0, storageLen := 0), [], [])
  }

  /** Octets kept when the footprint stays the same and zeroed when it changes. */
  function Refilled(old_: seq<byte>, want: nat): (r: seq<byte>)
    ensures |r| == want
  {
    if |old_| == want then old_ else Zeros(want)
  }

  function KeysResized(o: Owned, numKeys: nat, keyLen: nat): Owned
  {
    Owned(o.k.(numKeys := numKeys, keyLen := keyLen, storageLen := if numKeys == 0 then 0 else keyLen,
               numKeySets := 1, maxKeySize := 0, setSettings := 0),
          Refilled(o.keys, numKeys * Stride(keyLen)), [])
  }

  /** Fresh metadata: all zero but for the mask of initialised sets. */
  function InitialMetadata(numKeySets: nat, numKeys: nat): (m: seq<byte>)
    requires MIN_KEY_SETS <= numKeySets <= MAX_KEY_SETS && 0 < numKeys <= MAX_KEYS
    ensures |m| == MetadataLength(numKeySets, numKeys)
    ensures 2 * numKeySets + 2 <= |m| && MaskOf(m, numKeySets) < Pow2(numKeySets)
  {
    assert (numKeySets - 1) * numKeys >= 0;
    var mask := FullMask(numKeySets);
    Zeros(2 * numKeySets) + [mask % 256, mask / 256] + Zeros((numKeySets - 1) * numKeys)
  }

  lemma FreshMetadata(numKeySets: nat, numKeys: nat)
    requires MIN_KEY_SETS <= numKeySets <= MAX_KEY_SETS && 0 < numKeys <= MAX_KEYS
    ensures var mask := FullMask(numKeySets);
            && 2 * numKeySets + 2 <= MetadataLength(numKeySets, numKeys)
            && Overwritten(Zeros(MetadataLength(numKeySets, numKeys)), 2 * numKeySets, [mask % 256, mask / 256])
               == InitialMetadata(numKeySets, numKeys)
  {
    hide FullMask;
    var mask := FullMask(numKeySets);
    WrittenIntoZeros(2 * numKeySets, (numKeySets - 1) * numKeys, [mask % 256, mask / 256]);
  }

  lemma WrittenIntoZeros(before: nat, after: nat, data: seq<byte>)
    ensures Overwritten(Zeros(before + |data| + after), before, data) == Zeros(before) + data + Zeros(after)
  {
  }

  function Pow2(n: nat): (p: nat)
    ensures p > 0
  {
    if n == 0 then 1 else 2 * Pow2(n - 1)
  }

  lemma {:induction false} PowerWithin16(n: nat)
    requires n <= 16
    ensures Pow2(n) <= 65536
    decreases 16 - n
  {
    if n == 16 {
      assert Pow2(4) == 16 && Pow2(8) == 256 && Pow2(12) == 4096;
    } else {
      PowerWithin16(n + 1);
    }
  }

  /** The mask with the lowest `n` of sixteen bits set. */
  function FullMask(n: nat): (m: nat)
    requires n <= 16
    ensures m < 65536 && m < Pow2(n)
  {
    PowerWithin16(n);
    Pow2(n) - 1
  }

  /** The mask of initialised sets, stored behind the set versions and types. */
  function MaskOf(meta: seq<byte>, numKeySets: nat): nat
    requires 2 * numKeySets + 2 <= |meta|
  {
    meta[2 * numKeySets] as int + 256 * (meta[2 * numKeySets + 1] as int)
  }

  function KeySetsResized(o: Owned, numKeySets: nat, numKeys: nat, activeLen: nat, maxKeySize: nat): Owned
    requires MIN_KEY_SETS <= numKeySets <= MAX_KEY_SETS && 0 < numKeys <= MAX_KEYS
  {
    Owned(o.k.(numKeys := numKeys, keyLen := activeLen, storageLen := maxKeySize,
               numKeySets := numKeySets, maxKeySize := maxKeySize),
          Refilled(o.keys, SetsFootprint(numKeySets, numKeys, maxKeySize)),
          InitialMetadata(numKeySets, numKeys))
  }

  lemma KeySetsResizedConsistent(o: Owned, numKeySets: nat, numKeys: nat, activeLen: nat, maxKeySize: nat)
    requires Consistent(o)
    requires MIN_KEY_SETS <= numKeySets <= MAX_KEY_SETS && 0 < numKeys <= MAX_KEYS
    ensures Consistent(KeySetsResized(o, numKeySets, numKeys, activeLen, maxKeySize))
  {
  }

  /** The files that remain once an application is deleted: its own are gone and the
      owners behind it move down by one, but the PICC's files keep theirs. */
  function DropOwner(files: seq<File>, a: nat): seq<File>
  {
    if files == [] then []
    else if files[0].info.owner == a then DropOwner(files[1..], a)
    else [Renumbered(files[0], a)] + DropOwner(files[1..], a)
  }

  lemma {:induction false} DropOwnerAppend(files: seq<File>, f: File, a: nat)
    ensures DropOwner(files + [f], a)
         == DropOwner(files, a) + (if f.info.owner == a then [] else [Renumbered(f, a)])
  {
    if files == [] {
      assert (files + [f])[1..] == [];
    } else {
      assert (files + [f])[1..] == files[1..] + [f];
      DropOwnerAppend(files[1..], f, a);
    }
  }

  function Renumbered(f: File, a: nat): File
  {
    if f.info.owner != PICC_OWNER && f.info.owner > a then f.(info := f.info.(owner := f.info.owner - 1)) else f
  }

  function ApplicationDeleted(s: Store, a: nat): Store
    requires a < |s.aids| <= MAX_APPS && |s.keyed| == MAX_APPS + 1
  {
    Store(s.keyed[..a] + s.keyed[a + 1..|s.aids|] + [Owned(BLANK, [], [])] + s.keyed[|s.aids|..],
          s.aids[..a] + s.aids[a + 1..],
          DropOwner(s.files, a))
  }

  function Formatted(s: Store): Store
    requires |s.keyed| == MAX_APPS + 1
  {
    Store(seq(MAX_APPS, i => Owned(BLANK, [], [])) + [s.keyed[PICC]], [], [])
  }

  function ClearedStore(): Store
  {
    Store(seq(MAX_APPS, i => Owned(BLANK, [], []))
          + [Owned(PICC_DEFAULT.(numKeys := 1, keyLen := 8, storageLen := 8), Zeros(16), [])], [], [])
  }

  /** The first file with this owner and number; the file count when there is none. */
  function FindFile(files: seq<File>, owner: nat, number: byte): (i: nat)
    ensures i <= |files|
    ensures i < |files| ==> SameFile(files[i], owner, number)
    ensures forall j :: 0 <= j < i ==> !SameFile(files[j], owner, number)
  {
    if files == [] then 0
    else if SameFile(files[0], owner, number) then 0
    else 1 + FindFile(files[1..], owner, number)
  }

  function NewFile(a: nat, number: byte): File
  {
    File(FileRecord(a, number, 0, 0, 0, 0, false), [])
  }

  function NewApplication(settings1: byte, settings2: byte): Owned
  {
    KeysResized(Owned(BLANK.(settings1 := settings1, settings2 := settings2, authCommand := AuthCommandFor(settings2)),
                      [], []),
                settings2 % 16, KeyLength(settings2))
  }

  function WithKeys(s: Store, a: nat, o: Owned): Store
    requires a < |s.keyed|
  {
    s.(keyed := s.keyed[a := o])
  }

  // ---- What every operation keeps ---------------------------------------------------------

  predicate SameFile(f: File, owner: nat, number: byte)
  {
    f.info.owner == owner && f.info.number == number
  }

  ghost predicate StoreOk(s: Store)
  {
    && |s.keyed| == MAX_APPS + 1 && |s.aids| <= MAX_APPS && |s.files| <= MAX_FILES
    && (forall a :: 0 <= a < |s.keyed| ==> Consistent(s.keyed[a]))
    && (forall a :: |s.aids| <= a < MAX_APPS ==> s.keyed[a] == Owned(BLANK, [], []))
    && s.keyed[PICC].meta == [] && s.keyed[PICC].k.numKeySets == 1
    && (forall i, j :: 0 <= i < j < |s.aids| ==> s.aids[i] != s.aids[j])
    && (forall i :: 0 <= i < |s.files| ==> s.files[i].info.owner < |s.aids| || s.files[i].info.owner == PICC_OWNER)
    && (forall i, j :: 0 <= i < j < |s.files| ==> !SameFile(s.files[i], s.files[j].info.owner, s.files[j].info.number))
  }

  lemma ClearedIsOk()
    ensures StoreOk(ClearedStore())
  {
  }

  /** Where each file left by DropOwner came from. */
  ghost function Origin(files: seq<File>, a: nat, i: nat): (o: nat)
    requires i < |DropOwner(files, a)|
    ensures o < |files| && files[o].info.owner != a
    ensures DropOwner(files, a)[i] == Renumbered(files[o], a)
  {
    if files[0].info.owner == a then 1 + Origin(files[1..], a, i)
    else if i == 0 then 0 else 1 + Origin(files[1..], a, i - 1)
  }

  lemma {:induction false} OriginIncreases(files: seq<File>, a: nat, i: nat, j: nat)
    requires i < j < |DropOwner(files, a)|
    ensures Origin(files, a, i) < Origin(files, a, j)
  {
    hide Renumbered;
    if files[0].info.owner == a {
      OriginIncreases(files[1..], a, i, j);
    } else if i > 0 {
      OriginIncreases(files[1..], a, i - 1, j - 1);
    }
  }

  lemma {:induction false} DropOwnerShrinks(files: seq<File>, a: nat)
    ensures |DropOwner(files, a)| <= |files|
  {
    if files != [] { DropOwnerShrinks(files[1..], a); }
  }

  /** The files that stay have their numbers and proper owners. */
  lemma DroppedFilesOk(files: seq<File>, a: nat, apps: nat)
    requires a < apps <= MAX_APPS
    requires forall i :: 0 <= i < |files| ==> files[i].info.owner < apps || files[i].info.owner == PICC_OWNER
    requires forall i, j :: 0 <= i < j < |files| ==> !SameFile(files[i], files[j].info.owner, files[j].info.number)
    ensures var kept := DropOwner(files, a);
      && (forall i :: 0 <= i < |kept| ==> kept[i].info.owner < apps - 1 || kept[i].info.owner == PICC_OWNER)
      && (forall i, j :: 0 <= i < j < |kept| ==> !SameFile(kept[i], kept[j].info.owner, kept[j].info.number))
  {
    hide DropOwner;
    var kept := DropOwner(files, a);
    forall i | 0 <= i < |kept|
      ensures kept[i].info.owner < apps - 1 || kept[i].info.owner == PICC_OWNER
    {
      var o := Origin(files, a, i);
    }
    forall i, j | 0 <= i < j < |kept|
      ensures !SameFile(kept[i], kept[j].info.owner, kept[j].info.number)
    {
      OriginIncreases(files, a, i, j);
      var o, q := Origin(files, a, i), Origin(files, a, j);
      assert !SameFile(files[o], files[q].info.owner, files[q].info.number);
    }
  }

  lemma DeletionKeepsOk(s: Store, a: nat)
    requires StoreOk(s) && a < |s.aids|
    ensures StoreOk(ApplicationDeleted(s, a))
  {
    hide DropOwner, Consistent;
    var t := ApplicationDeleted(s, a);
    DropOwnerShrinks(s.files, a);
    DroppedFilesOk(s.files, a, |s.aids|);
    BlankConsistent();
    assert t.keyed[PICC] == s.keyed[PICC];
    assert forall i :: 0 <= i < a ==> t.keyed[i] == s.keyed[i];
    assert forall i :: a <= i < |s.aids| - 1 ==> t.keyed[i] == s.keyed[i + 1];
    assert forall i :: |s.aids| <= i <= MAX_APPS ==> t.keyed[i] == s.keyed[i];
    assert forall i :: 0 <= i < |t.aids| ==> t.aids[i] == s.aids[if i < a then i else i + 1];
  }

  lemma BlankConsistent()
    ensures Consistent(Owned(BLANK, [], []))
  {
  }

  lemma FilesKeepOk(s: Store, files: seq<File>)
    requires StoreOk(s) && |files| <= MAX_FILES
    requires forall i :: 0 <= i < |files| ==> files[i].info.owner < |s.aids| || files[i].info.owner == PICC_OWNER
    requires forall i, j :: 0 <= i < j < |files| ==> !SameFile(files[i], files[j].info.owner, files[j].info.number)
    ensures StoreOk(s.(files := files))
  {
  }

  lemma KeysKeepOk(s: Store, a: nat, o: Owned)
    requires StoreOk(s) && (a < |s.aids| || a == PICC) && Consistent(o)
    requires a == PICC ==> o.meta == [] && o.k.numKeySets == 1
    ensures StoreOk(WithKeys(s, a, o))
  {
  }

  // ---- Materialising contents ------------------------------------------------------------

  predicate IsSized(f: FileRecord)
  {
    f.kind == 0 || f.kind == 1 || f.kind == 3 || f.kind == 4
  }

  /** The octets a data file declares, or a record file's records take. */
  function FullSize(f: FileRecord): nat
  {
    if f.kind == 0 || f.kind == 1 then f.declaredSize else f.recordCount * f.recordSize
  }

  function Padded(data: seq<byte>, want: nat): seq<byte>
  {
    if |data| >= want then data else data + Zeros(want - |data|)
  }

  /** One file brought to its full size, if the scratch can park what is known of it
      and the pool has room; `free` is the room left. */
  function MaterializedFile(f: File, free: nat, scratchLen: nat): (File, bool)
  {
    if !IsSized(f.info) then (f, true)
    else
      var want := FullSize(f.info);
      if |f.data| >= want then (f.(info := f.info.(complete := true)), true)
      else if |f.data| > scratchLen || want > MAX_FILE_DATA || want - |f.data| > free then (f, false)
      else (File(f.info.(complete := true), Padded(f.data, want)), true)
  }

  function RoomAfter(f: File, free: nat, scratchLen: nat): (r: nat)
    ensures r == free + |f.data| - |MaterializedFile(f, free, scratchLen).0.data|
  {
    if IsSized(f.info) && MaterializedFile(f, free, scratchLen).1 && |f.data| < FullSize(f.info)
    then free - (FullSize(f.info) - |f.data|) else free
  }

  /** How far the loop over all files has come: those below `i` have been brought to their
      size, `free` is the room left and `whole` what the loop will come to. */
  predicate Materializing(all: seq<File>, files: seq<File>, i: nat, free: nat, scratchLen: nat, complete: bool,
                          whole: (seq<File>, bool))
  {
    && i <= |all| == |files| && files[i..] == all[i..]
    && var rest := Materialized(all[i..], free, scratchLen);
       whole == (files[..i] + rest.0, complete && rest.1)
  }

  lemma MaterializeStart(all: seq<File>, free: nat, scratchLen: nat)
    ensures Materializing(all, all, 0, free, scratchLen, true, Materialized(all, free, scratchLen))
  {
    var whole := Materialized(all, free, scratchLen);
    assert all[0..] == all && all[..0] + whole.0 == whole.0;
  }

  lemma MaterializeStep(all: seq<File>, files: seq<File>, i: nat, free: nat, scratchLen: nat, complete: bool,
                        whole: (seq<File>, bool))
    requires Materializing(all, files, i, free, scratchLen, complete, whole) && i < |all|
    ensures files[i] == all[i]
    ensures var (f, ok) := MaterializedFile(all[i], free, scratchLen);
      Materializing(all, files[i := f], i + 1, RoomAfter(all[i], free, scratchLen), scratchLen, complete && ok, whole)
  {
    hide MaterializedFile, RoomAfter;
    var (f, ok) := MaterializedFile(all[i], free, scratchLen);
    assert files[i] == files[i..][0] == all[i];
    assert all[i..][0] == all[i] && all[i..][1..] == all[i + 1..];
    var rest := Materialized(all[i + 1..], RoomAfter(all[i], free, scratchLen), scratchLen);
    assert Materialized(all[i..], free, scratchLen) == ([f] + rest.0, ok && rest.1);
    assert files[..i] + ([f] + rest.0) == files[i := f][..i + 1] + rest.0;
    assert files[i := f][i + 1..] == files[i..][1..] == all[i + 1..];
  }

  lemma MaterializeEnd(all: seq<File>, files: seq<File>, i: nat, free: nat, scratchLen: nat, complete: bool,
                       whole: (seq<File>, bool))
    requires Materializing(all, files, i, free, scratchLen, complete, whole) && i >= |files|
    ensures whole == (files, complete)
  {
    assert all[i..] == [] && files[..i] + [] == files;
  }

  /** All files in turn; the flag says that none was left short. */
  function Materialized(files: seq<File>, free: nat, scratchLen: nat): (seq<File>, bool)
  {
    if files == [] then ([], true)
    else
      var (f, ok) := MaterializedFile(files[0], free, scratchLen);
      var (rest, all) := Materialized(files[1..], RoomAfter(files[0], free, scratchLen), scratchLen);
      ([f] + rest, ok && all)
  }

  /** Materialising only appends zeros: no known octet is lost, whatever the outcome,
      and the flag is set exactly when every sized file has its full size. */
  lemma {:induction false} MaterializedAppendsZeros(files: seq<File>, free: nat, scratchLen: nat)
    ensures var (after, complete) := Materialized(files, free, scratchLen);
      && |after| == |files|
      && (forall i :: 0 <= i < |files| ==>
            && SameFile(after[i], files[i].info.owner, files[i].info.number)
            && (after[i].data == files[i].data
                || (IsSized(files[i].info) && after[i].data == Padded(files[i].data, FullSize(files[i].info)))))
      && (complete <==> forall i :: 0 <= i < |files| && IsSized(files[i].info) ==> |after[i].data| >= FullSize(files[i].info))
  {
    if files != [] {
      var rest := Materialized(files[1..], RoomAfter(files[0], free, scratchLen), scratchLen);
      MaterializedAppendsZeros(files[1..], RoomAfter(files[0], free, scratchLen), scratchLen);
      var after := Materialized(files, free, scratchLen);
      assert after.0[1..] == rest.0;
      assert forall i :: 1 <= i < |files| ==> after.0[i] == rest.0[i - 1] && files[i] == files[1..][i - 1];
      if after.1 {
        forall i | 0 <= i < |files| && IsSized(files[i].info)
          ensures |after.0[i].data| >= FullSize(files[i].info)
        {
          if i > 0 { assert IsSized(files[1..][i - 1].info); }
        }
      } else if MaterializedFile(files[0], free, scratchLen).1 {
        var i :| 0 <= i < |files[1..]| && IsSized(files[1..][i].info) && |rest.0[i].data| < FullSize(files[1..][i].info);
        assert |after.0[i + 1].data| < FullSize(files[i + 1].info);
      } else {
        assert |after.0[0].data| < FullSize(files[0].info);
      }
    }
  }

  /** One file: a data file is brought to its declared size and a record file to its records,
      with zeros, when the scratch holds what is known, 2048 octets suffice and there is room;
      every other file stays as it is, and only a file that is whole is marked so. */
  lemma MaterializedOne(f: File, free: nat, scratchLen: nat)
    ensures var (after, ok) := MaterializedFile(f, free, scratchLen);
      var want := if f.info.kind <= 1 then f.info.declaredSize else f.info.recordCount * f.info.recordSize;
      var short := |f.data| < want;
      && (f.info.kind == 2 || f.info.kind > 4 ==> ok && after == f)
      && (f.info.kind != 2 && f.info.kind <= 4 ==>
            && (ok <==> !short || (|f.data| <= scratchLen && want <= 2048 && want - |f.data| <= free))
            && after.data == (if ok && short then f.data + Zeros(want - |f.data|) else f.data)
            && after.info == (if ok then f.info.(complete := true) else f.info))
  {
  }

  /** Materialising keeps the store well formed. */
  lemma MaterializedKeepsOk(s: Store, free: nat, scratchLen: nat)
    requires StoreOk(s)
    ensures StoreOk(s.(files := Materialized(s.files, free, scratchLen).0))
  {
    hide Materialized, Consistent;
    MaterializedAppendsZeros(s.files, free, scratchLen);
    var after := Materialized(s.files, free, scratchLen).0;
    assert forall i :: 0 <= i < |after| ==>
      after[i].info.owner == s.files[i].info.owner && after[i].info.number == s.files[i].info.number;
    FilesKeepOk(s, after);
  }
}
