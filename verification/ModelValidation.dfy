/** The validator's verdict on the pools of a credential: the key, metadata and file pools
    are each covered exactly once, and every record's key bookkeeping suits the octets it
    owns. */
module ModelValidation {
  import opened Bytes
  import opened Limits
  import opened SlicePools
  import opened PoolValidation
  import opened CredentialStore
  import opened KeySets
  import opened CredentialCommands
  import opened KeyChecks
  import opened Credentials

  /** A record as the validator meets it: bookkeeping and slices, nothing taken for granted. */
  datatype Record = Record(k: Keyed, keys: Slice, meta: Slice)

  /** A credential's pools. The octets are the whole arrays, used or not; `None` is the
      offset that stands for no slice, which depends on the pool's size. */
  datatype Pools = Pools(picc: Record, apps: seq<Record>, files: seq<Slice>, keyOctets: seq<byte>, metaOctets: seq<byte>,
                         fileCapacity: nat, keyUsed: nat, metaUsed: nat, fileUsed: nat,
                         keyNone: nat, metaNone: nat, fileNone: nat)

  /** The capacities leave the offset that stands for no slice free. */
  predicate Bounded(p: Pools)
  {
    |p.keyOctets| < p.keyNone && |p.metaOctets| < p.metaNone && p.fileCapacity < p.fileNone
  }

  function KeySlices(apps: seq<Record>): (s: seq<Slice>)
    ensures |s| == |apps|
  {
    seq(|apps|, i requires 0 <= i < |apps| => apps[i].keys)
  }

  function MetaSlices(apps: seq<Record>): (s: seq<Slice>)
    ensures |s| == |apps|
  {
    seq(|apps|, i requires 0 <= i < |apps| => apps[i].meta)
  }

  /** An application's record with the octets its slices hold. */
  function OwnedBy(p: Pools, r: Record): Owned
  {
    Owned(r.k, Content(p.keyOctets, r.keys), Content(p.metaOctets, r.meta))
  }

  function OwnedByPicc(p: Pools): Owned
  {
    Owned(p.picc.k, Content(p.keyOctets, p.picc.keys), [])
  }

  ghost predicate RecordsSuit(p: Pools)
  {
    Suits(OwnedByPicc(p), false) && forall i :: 0 <= i < |p.apps| ==> Suits(OwnedBy(p, p.apps[i]), true)
  }

  /** Every used octet of each pool belongs to exactly one record. */
  ghost predicate Covered(p: Pools)
  {
    && p.keyUsed <= |p.keyOctets| && ExactCover([p.picc.keys] + KeySlices(p.apps), p.keyUsed, p.keyNone)
    && p.metaUsed <= |p.metaOctets| && ExactCover(MetaSlices(p.apps), p.metaUsed, p.metaNone)
    && p.fileUsed <= p.fileCapacity && ExactCover(p.files, p.fileUsed, p.fileNone)
  }

  // ---- The validator ----------------------------------------------------------------------

  /** The metadata of a record that keeps sets; none when its slice cannot be right. */
  function MetadataSlice(p: Pools, r: Record): (m: Option<seq<byte>>)
    ensures m.Some? ==> |m.value| == MetadataLength(r.k.numKeySets, r.k.numKeys)
    ensures m.Some? ==> r.meta.length > 0 && m.value == Content(p.metaOctets, r.meta)
  {
    var expected, at := MetadataLength(r.k.numKeySets, r.k.numKeys), r.meta.offset;
    if r.k.numKeySets < MIN_KEY_SETS || p.metaUsed > |p.metaOctets| || expected == 0 || r.meta.length != expected then None
    else if at == p.metaNone || at > |p.metaOctets| || expected > |p.metaOctets| - at then None
    else if at > p.metaUsed || expected > p.metaUsed - at then None
    else Some(p.metaOctets[at..at + expected])
  }

  lemma MetadataHolds(numKeySets: nat, numKeys: nat)
    requires MetadataLength(numKeySets, numKeys) > 0
    ensures 2 * numKeySets + 2 <= MetadataLength(numKeySets, numKeys)
    ensures 0 < numKeys <= MAX_KEYS && MIN_KEY_SETS <= numKeySets <= MAX_KEY_SETS
  {
    assert (numKeySets - 1) * numKeys >= 0;
  }

  /** The loop over the set types. */
  method SetTypesFit(kinds: seq<byte>, maxKeySize: nat) returns (fit: bool)
    ensures fit <==> KindsFit(kinds, maxKeySize)
  {
    for j := 0 to |kinds|
      invariant KindsFit(kinds[..j], maxKeySize)
    {
      var width := SetKeyLength(kinds[j]);
      if width == 0 || width > maxKeySize { return false; }
    }
    assert kinds[..|kinds|] == kinds;
    return true;
  }

  /** What the validator asks of one record besides where its key slice lies. */
  predicate RecordPasses(p: Pools, r: Record, isApp: bool)
  {
    && r.k.numKeys <= MAX_KEYS && (r.k.numKeys > 0 ==> LengthSuitsType(r.k.settings2, r.k.keyLen))
    && (isApp ==> 0 < r.k.numKeySets <= MAX_KEY_SETS)
    && (KeepsSets(r.k, isApp) ==> MetadataSlice(p, r).Some? && MetaSuits(r.k, MetadataSlice(p, r).value))
    && r.keys.length == Footprint(r.k, isApp)
  }

  method KeySliceIsValid(p: Pools, r: Record, isApp: bool) returns (valid: bool)
    ensures valid == (RecordPasses(p, r, isApp) &&
                      SliceIsValid(r.keys.offset, r.keys.length, p.keyUsed, |p.keyOctets|, p.keyNone))
  {
    hide SliceIsValid, SetsFootprint, LengthSuitsType, MetadataLength, KindsFit;
    var k := r.k;
    if k.numKeys > MAX_KEYS { return false; }
    if k.numKeys > 0 && !LengthSuitsType(k.settings2, k.keyLen) { return false; }
    if isApp {
      if k.numKeySets == 0 || k.numKeySets > MAX_KEY_SETS { return false; }
      if k.numKeySets >= MIN_KEY_SETS {
        var slice := MetadataSlice(p, r);
        if k.numKeys == 0 || slice.None? { return false; }
        var meta := slice.value;
        MetadataHolds(k.numKeySets, k.numKeys);
        if MaskOf(meta, k.numKeySets) % 2 != 1 { return false; }
        if k.maxKeySize != 16 && k.maxKeySize != 24 { return false; }
        if k.storageLen != k.maxKeySize { return false; }
        var active := meta[k.numKeySets];
        if k.keyLen > k.maxKeySize || SetKeyLength(active) != k.keyLen || k.settings2 != SettingsFor(k.settings2, active) {
          return false;
        }
        var fit := SetTypesFit(meta[k.numKeySets..2 * k.numKeySets], k.maxKeySize);
        if !fit { return false; }
      }
    }
    if r.keys.length != Footprint(k, isApp) { return false; }
    return SliceIsValid(r.keys.offset, r.keys.length, p.keyUsed, |p.keyOctets|, p.keyNone);
  }

  /** A record without sets has no metadata; one with sets has a whole slice of it. */
  predicate MetadataPasses(p: Pools, r: Record)
  {
    if r.k.numKeySets < MIN_KEY_SETS then r.meta == Slice(p.metaNone, 0) else MetadataSlice(p, r).Some?
  }

  /** The first two loops: every record by itself. */
  method RecordsAreValid(p: Pools) returns (valid: bool)
    requires Bounded(p) && p.keyUsed <= |p.keyOctets|
    ensures valid <==>
      && RecordPasses(p, p.picc, false) && InBounds(p.picc.keys, p.keyUsed, p.keyNone)
      && forall i :: 0 <= i < |p.apps| ==>
        RecordPasses(p, p.apps[i], true) && InBounds(p.apps[i].keys, p.keyUsed, p.keyNone) && MetadataPasses(p, p.apps[i])
  {
    hide RecordPasses, MetadataPasses;
    valid := KeySliceIsValid(p, p.picc, false);
    if !valid { return; }
    for i := 0 to |p.apps|
      invariant forall j :: 0 <= j < i ==>
        RecordPasses(p, p.apps[j], true) && InBounds(p.apps[j].keys, p.keyUsed, p.keyNone) && MetadataPasses(p, p.apps[j])
    {
      valid := KeySliceIsValid(p, p.apps[i], true);
      if !valid || !MetadataPasses(p, p.apps[i]) { return false; }
    }
    return true;
  }

  /** Of slices in bounds, the validator's view of a record is the record it describes. */
  lemma AppAgrees(p: Pools, r: Record)
    requires Bounded(p) && p.keyUsed <= |p.keyOctets| && p.metaUsed <= |p.metaOctets|
    requires InBounds(r.keys, p.keyUsed, p.keyNone) && InBounds(r.meta, p.metaUsed, p.metaNone)
    ensures RecordPasses(p, r, true) && MetadataPasses(p, r) <==> Suits(OwnedBy(p, r), true)
  {
    hide MetadataLength, SetsSuit, LengthSuitsType, SetsFootprint;
    if r.k.numKeySets >= MIN_KEY_SETS && r.meta.length == MetadataLength(r.k.numKeySets, r.k.numKeys) > 0 {
      MetadataHolds(r.k.numKeySets, r.k.numKeys);
      assert MetadataSlice(p, r).Some?;
    }
  }

  lemma PiccAgrees(p: Pools)
    requires p.keyUsed <= |p.keyOctets| && InBounds(p.picc.keys, p.keyUsed, p.keyNone)
    ensures RecordPasses(p, p.picc, false) <==> Suits(OwnedByPicc(p), false)
  {
    hide LengthSuitsType, SetsFootprint;
  }

  lemma CoveredInBounds(p: Pools)
    requires Covered(p)
    ensures InBounds(p.picc.keys, p.keyUsed, p.keyNone)
    ensures forall i :: 0 <= i < |p.apps| ==>
      InBounds(p.apps[i].keys, p.keyUsed, p.keyNone) && InBounds(p.apps[i].meta, p.metaUsed, p.metaNone)
  {
    hide ExactCover, TotalLength, InBounds;
    var keys, metas := [p.picc.keys] + KeySlices(p.apps), MetaSlices(p.apps);
    TilingIsExactCover(keys, p.keyUsed, p.keyNone);
    TilingIsExactCover(metas, p.metaUsed, p.metaNone);
    assert InBounds(keys[0], p.keyUsed, p.keyNone);
    assert forall i :: 0 <= i < |p.apps| ==> p.apps[i].keys == keys[i + 1] && p.apps[i].meta == metas[i];
  }

  /** Accepts pools exactly when each is covered exactly once and every record suits the
      octets it owns. */
  method PoolsAreValid(p: Pools) returns (valid: bool)
    requires Bounded(p)
    ensures valid <==> Covered(p) && RecordsSuit(p)
  {
    hide RecordPasses, MetadataPasses, Suits, ExactCover, InBounds, OwnedBy, OwnedByPicc;
    if p.keyUsed > |p.keyOctets| || p.fileUsed > p.fileCapacity || p.metaUsed > |p.metaOctets| { return false; }
    var keys, metas := [p.picc.keys] + KeySlices(p.apps), MetaSlices(p.apps);
    var keysTile := PoolIsValid(keys, p.keyUsed, |p.keyOctets|, p.keyNone);
    var metasTile := PoolIsValid(metas, p.metaUsed, |p.metaOctets|, p.metaNone);
    var filesTile := PoolIsValid(p.files, p.fileUsed, p.fileCapacity, p.fileNone);
    var records := RecordsAreValid(p);
    valid := keysTile && metasTile && filesTile && records;
    if Covered(p) {
      CoveredInBounds(p);
      PiccAgrees(p);
      forall i | 0 <= i < |p.apps|
        ensures RecordPasses(p, p.apps[i], true) && MetadataPasses(p, p.apps[i]) <==> Suits(OwnedBy(p, p.apps[i]), true)
      {
        AppAgrees(p, p.apps[i]);
      }
    }
  }

  // ---- The pools of a credential object ---------------------------------------------------

  function Records(counts: seq<Keyed>, keys: seq<Slice>, metas: seq<Slice>, n: nat): (r: seq<Record>)
    requires n <= |counts| == |keys| == |metas|
    ensures |r| == n && KeySlices(r) == keys[..n] && MetaSlices(r) == metas[..n]
  {
    seq(n, i requires 0 <= i < n => Record(counts[i], keys[i], metas[i]))
  }

  /** What the validator is given: the created applications, the PICC and the files. */
  ghost function PoolsOf(c: Credential): (p: Pools)
    reads c, c.filePool, c.filePool.bytes, c.keyPool, c.keyPool.bytes, c.metaPool, c.metaPool.bytes
    requires c.PoolsOk() && |c.aids| <= MAX_APPS
    ensures Bounded(p)
  {
    Pools(Record(c.counts[PICC], c.keyPool.slots[PICC], c.metaPool.slots[PICC]),
          Records(c.counts, c.keyPool.slots, c.metaPool.slots, |c.aids|), c.filePool.slots,
          c.keyPool.bytes[..], c.metaPool.bytes[..], c.filePool.bytes.Length,
          c.keyPool.used, c.metaPool.used, c.filePool.used, c.keyPool.none, c.metaPool.none, c.filePool.none)
  }

  /** Slices tile without the empty ones among them. */
  lemma PrefixTiles(slots: seq<Slice>, used: nat, none: nat, n: nat)
    requires Tiled(slots, used, none) && n <= |slots|
    requires forall i :: n <= i < |slots| ==> slots[i].length == 0
    ensures Tiled(slots[..n], used, none)
  {
    hide InBounds, Apart;
    assert slots == slots[..n] + slots[n..];
    TotalAppend(slots[..n], slots[n..]);
    TotalOfEmpty(slots[n..]);
  }

  lemma LastFirstTiles(slots: seq<Slice>, used: nat, none: nat, n: nat)
    requires Tiled(slots, used, none) && n < |slots|
    requires forall i :: n <= i < |slots| - 1 ==> slots[i].length == 0
    ensures Tiled([slots[|slots| - 1]] + slots[..n], used, none)
  {
    hide InBounds;
    var last := slots[|slots| - 1];
    assert slots == slots[..n] + slots[n..|slots| - 1] + [last];
    TotalAppend(slots[..n] + slots[n..|slots| - 1], [last]);
    TotalAppend(slots[..n], slots[n..|slots| - 1]);
    TotalOfEmpty(slots[n..|slots| - 1]);
    TotalAppend([last], slots[..n]);
    forall i | 0 <= i < n
      ensures Apart(last, slots[i])
    {
      assert Apart(slots[i], last);
    }
  }

  /** The records the validator is given own what the credential holds. */
  lemma SameRecords(c: Credential)
    requires c.Valid()
    ensures |c.aids| <= MAX_APPS && |c.View().keyed| == MAX_APPS + 1
    ensures var p := PoolsOf(c);
      && OwnedByPicc(p) == c.View().keyed[PICC]
      && |p.apps| == |c.aids| && forall a :: 0 <= a < |c.aids| ==> OwnedBy(p, p.apps[a]) == c.View().keyed[a]
    ensures forall a :: |c.aids| <= a < MAX_APPS ==> c.keyPool.slots[a].length == c.metaPool.slots[a].length == 0
    ensures c.metaPool.slots[PICC].length == 0
  {
    hide Tiled, Consistent, Content;
    assert forall a :: 0 <= a <= MAX_APPS ==> |c.View().keyed[a].keys| == c.keyPool.slots[a].length;
    assert forall a :: 0 <= a <= MAX_APPS ==> |c.View().keyed[a].meta| == c.metaPool.slots[a].length;
  }

  /** A credential that has come about by its own operations passes the validator's pool
      check exactly when the key bookkeeping of its records suits their octets: its pools
      are always covered. */
  lemma CredentialVerdict(c: Credential)
    requires c.Valid()
    ensures |c.aids| <= MAX_APPS && Covered(PoolsOf(c))
    ensures Sized(c.View()) && (RecordsSuit(PoolsOf(c)) <==> Validated(c.View()))
  {
    hide Suits, Tiled, StoreOk, ExactCover, OwnedBy, OwnedByPicc, Credential.View;
    SameRecords(c);
    OkIsSized(c.View());
    c.AidsSeen();
    var n := |c.aids|;
    LastFirstTiles(c.keyPool.slots, c.keyPool.used, c.keyPool.none, n);
    PrefixTiles(c.metaPool.slots, c.metaPool.used, c.metaPool.none, n);
    TilingIsExactCover([c.keyPool.slots[PICC]] + c.keyPool.slots[..n], c.keyPool.used, c.keyPool.none);
    TilingIsExactCover(c.metaPool.slots[..n], c.metaPool.used, c.metaPool.none);
    TilingIsExactCover(c.filePool.slots, c.filePool.used, c.filePool.none);
  }
}
