/** What the validator asks of a record's key bookkeeping, and which commands keep to it. */
module KeyChecks {
  import opened Bytes
  import opened Limits
  import opened SlicePools
  import opened CredentialStore
  import opened KeySets
  import opened CredentialCommands

  // ---- What suits a record ----------------------------------------------------------------

  predicate LengthSuitsType(settings2: byte, keyLen: nat)
  {
    var kind := settings2 / 64;
    (kind == 0 && (keyLen == 8 || keyLen == 16)) || (kind == 1 && keyLen == 24) || (kind == 2 && keyLen == 16)
  }

  predicate KeepsSets(k: Keyed, isApp: bool)
  {
    isApp && k.numKeySets >= MIN_KEY_SETS
  }

  /** The octets a record's keys take. */
  function Footprint(k: Keyed, isApp: bool): nat
  {
    if KeepsSets(k, isApp) then SetsFootprint(k.numKeySets, k.numKeys, k.storageLen) else SetsFootprint(1, k.numKeys, k.keyLen)
  }

  /** The active set is initialised and gives the key length and type bits; no set's keys
      are wider than the storage. */
  predicate SetsSuit(k: Keyed, meta: seq<byte>)
    requires 2 * k.numKeySets + 2 <= |meta| && k.numKeySets > 0
  {
    && MaskOf(meta, k.numKeySets) % 2 == 1
    && (k.maxKeySize == 16 || k.maxKeySize == 24) && k.storageLen == k.maxKeySize && k.keyLen <= k.maxKeySize
    && SetKeyLength(meta[k.numKeySets]) == k.keyLen && k.settings2 == SettingsFor(k.settings2, meta[k.numKeySets])
    && KindsFit(meta[k.numKeySets..2 * k.numKeySets], k.maxKeySize)
  }

  predicate KindsFit(kinds: seq<byte>, maxKeySize: nat)
  {
    forall j :: 0 <= j < |kinds| ==> 0 < SetKeyLength(kinds[j]) <= maxKeySize
  }

  /** The metadata of a record that keeps sets is complete and suits it. */
  predicate MetaSuits(k: Keyed, meta: seq<byte>)
  {
    && 0 < k.numKeys && |meta| == MetadataLength(k.numKeySets, k.numKeys) && 2 * k.numKeySets + 2 <= |meta|
    && 0 < k.numKeySets && SetsSuit(k, meta)
  }

  /** A record's bookkeeping suits the octets it owns. */
  predicate Suits(o: Owned, isApp: bool)
  {
    && o.k.numKeys <= MAX_KEYS && (o.k.numKeys > 0 ==> LengthSuitsType(o.k.settings2, o.k.keyLen))
    && (isApp ==> 0 < o.k.numKeySets <= MAX_KEY_SETS)
    && (if KeepsSets(o.k, isApp) then MetaSuits(o.k, o.meta) else o.meta == [])
    && |o.keys| == Footprint(o.k, isApp)
  }

  // ---- Rolling ------------------------------------------------------------------------------

  /** An application the validator accepts comes back whole from rolling its key sets all
      the way round. */
  lemma ValidatedRollsBack(o: Owned, r: nat)
    requires Suits(o, true) && HasSets(o) && r <= o.k.numKeySets
    ensures Rolled(Rolled(o, r), o.k.numKeySets - r) == o
  {
    hide Rolled, SettingsFor, SetKeyLength;
    HasSetsShape(o);
    RollBackRestores(o, r);
  }

  /** What suits a record with sets, said of its list of sets. */
  predicate ListSuits(k: Keyed, sets: seq<KeySet>)
    requires |sets| > 0
  {
    && sets[0].info.initialized
    && (k.maxKeySize == 16 || k.maxKeySize == 24) && k.storageLen == k.maxKeySize && k.keyLen <= k.maxKeySize
    && SetKeyLength(sets[0].info.kind) == k.keyLen && k.settings2 == SettingsFor(k.settings2, sets[0].info.kind)
    && forall j :: 0 <= j < |sets| ==> 0 < SetKeyLength(sets[j].info.kind) <= k.maxKeySize
  }

  lemma SetsAsList(o: Owned)
    requires HasSets(o)
    ensures |Sets(o)| == o.k.numKeySets && 2 * o.k.numKeySets + 2 <= |o.meta|
    ensures SetsSuit(o.k, o.meta) <==> ListSuits(o.k, Sets(o))
  {
    hide KeyVersions, BlocksOf, SetKeyLength, SettingsFor, KeysOfSet;
    HasSetsShape(o);
    var s, kinds := o.k.numKeySets, o.meta[o.k.numKeySets..2 * o.k.numKeySets];
    assert Sets(o)[0].info.initialized == Bit(MaskOf(o.meta, s), 0);
    assert forall j :: 0 <= j < s ==> Sets(o)[j].info.kind == kinds[j];
    assert kinds[0] == o.meta[s];
  }

  lemma SetInfoOf(o: Owned, j: nat)
    requires HasSets(o) && j < o.k.numKeySets
    ensures |Sets(o)| == o.k.numKeySets && 2 * o.k.numKeySets + 2 <= |o.meta|
    ensures Sets(o)[j].info.kind == o.meta[o.k.numKeySets + j]
    ensures Sets(o)[j].info.initialized == Bit(MaskOf(o.meta, o.k.numKeySets), j)
  {
    hide KeyVersions, BlocksOf, KeysOfSet, Bit;
    HasSetsShape(o);
  }

  /** A record that suits its octets and keeps sets. */
  lemma SuitsBySets(o: Owned)
    requires HasSets(o)
    ensures Suits(o, true) <==> ListSuits(o.k, Sets(o))
  {
    hide Sets, SetsSuit, ListSuits, SetKeyLength, SettingsFor, LengthSuitsType, MetadataLength, SetsFootprint;
    HasSetsShape(o);
    SetsAsList(o);
    if ListSuits(o.k, Sets(o)) { ListGivesType(o.k, Sets(o)); }
    assert |o.keys| == SetsFootprint(o.k.numKeySets, o.k.numKeys, o.k.storageLen) by { FootprintOf(o); }
  }

  lemma FootprintOf(o: Owned)
    requires HasSets(o)
    ensures |o.keys| == SetsFootprint(o.k.numKeySets, o.k.numKeys, o.k.storageLen)
    ensures |o.meta| == MetadataLength(o.k.numKeySets, o.k.numKeys)
  {
  }

  /** Type bits and key length of a known set type suit each other. */
  lemma ListGivesType(k: Keyed, sets: seq<KeySet>)
    requires |sets| > 0 && ListSuits(k, sets)
    ensures LengthSuitsType(k.settings2, k.keyLen)
  {
    var kind := sets[0].info.kind;
    assert kind <= 2;
    assert k.settings2 == k.settings2 % 64 + 64 * kind;
  }

  /** A list that suits a record still does when turned, with key length and type bits
      following, exactly when the set that comes first is initialised. */
  lemma TurnedListSuits(k: Keyed, after: Keyed, sets: seq<KeySet>, r: nat)
    requires r < |sets| && ListSuits(k, sets) && after.maxKeySize == k.maxKeySize && after.storageLen == k.storageLen
    requires after.keyLen == SetKeyLength(sets[r].info.kind)
    requires after.settings2 == SettingsFor(after.settings2, sets[r].info.kind)
    ensures ListSuits(after, RotateLeft(sets, r)) <==> sets[r].info.initialized
  {
    hide SetKeyLength, SettingsFor, RotateLeft, Turned;
    var turned := RotateLeft(sets, r);
    forall j | 0 <= j < |sets|
      ensures turned[j] == sets[Turned(j, r, |sets|)]
    {
      RotateAt(sets, r, j);
    }
    assert Turned(0, r, |sets|) == r by { TurnedStart(r, |sets|); }
    assert forall j :: 0 <= j < |turned| ==> 0 < SetKeyLength(turned[j].info.kind) <= k.maxKeySize;
  }

  lemma TurnedStart(r: nat, s: nat)
    requires r < s
    ensures Turned(0, r, s) == r
  {
  }

  /** What a roll leaves of the bookkeeping, and where the settings come from. */
  lemma RolledKeyed(o: Owned, r: nat)
    requires HasSets(o) && r < o.k.numKeySets
    ensures var t := Rolled(o, r);
      && HasSets(t) && Sets(t) == RotateLeft(Sets(o), r)
      && t.k.maxKeySize == o.k.maxKeySize && t.k.storageLen == o.k.storageLen
      && t.k.keyLen == SetKeyLength(Sets(o)[r].info.kind)
      && t.k.settings2 == SettingsFor(t.k.settings2, Sets(o)[r].info.kind)
  {
    hide Rolled, Sets, SetKeyLength, SettingsFor, RotateLeft, HasSets, Turned;
    ActiveKindOfSets(Rolled(o, r));
    RotateAt(Sets(o), r, 0);
    TurnedStart(r, o.k.numKeySets);
  }

  /** Rolling makes a validated application fail the check exactly when the set it makes
      active was never initialised. */
  lemma RollKeepsValidated(o: Owned, r: nat)
    requires Suits(o, true) && HasSets(o) && r < o.k.numKeySets
    ensures HasSets(Rolled(o, r))
    ensures Suits(Rolled(o, r), true) <==> Sets(o)[r].info.initialized
  {
    hide Rolled, Sets, Suits, ListSuits, SetKeyLength, SettingsFor, RotateLeft, HasSets;
    SuitsBySets(o);
    RolledKeyed(o, r);
    SuitsBySets(Rolled(o, r));
    TurnedListSuits(o.k, Rolled(o, r).k, Sets(o), r);
  }

  // ---- Commands -----------------------------------------------------------------------------

  /** Every record of the store suits the octets it owns. */
  ghost predicate Validated(s: Store)
    requires Sized(s)
  {
    Suits(s.keyed[PICC], false) && forall a :: 0 <= a < |s.aids| ==> Suits(s.keyed[a], true)
  }

  /** A new application has keys of the length and the authentication command its type bits
      name, and suits them unless they name no type. */
  lemma CreatedSuits(settings1: byte, settings2: byte)
    requires 0 < settings2 % 16 <= MAX_KEYS
    ensures var o := NewApplication(settings1, settings2); var kind := settings2 / 64;
      && o.k.numKeys == settings2 % 16 && o.k.keyLen == (if kind == 1 then 24 else 16)
      && o.keys == Zeros((settings2 % 16) * (if kind == 1 then 24 else 16))
      && o.k.authCommand == (if kind == 2 then 0xAA else if kind == 1 then 0x1A else 0x0A)
      && o.k.settings1 == settings1 && o.k.settings2 == settings2
      && (Suits(o, true) <==> kind != 3)
  {
  }

  /** The cleared credential has one zero DES key for its PICC, nothing else, and suits. */
  lemma ClearedSuits()
    ensures Sized(ClearedStore()) && Validated(ClearedStore())
    ensures var s := ClearedStore(); var k := s.keyed[PICC].k;
      && s.aids == [] && s.files == [] && s.keyed[PICC].keys == Zeros(16)
      && k.settings1 == 0x0F && k.settings2 == 0x01 && k.authCommand == 0x0A && k.numKeys == 1 && k.keyLen == 8
  {
  }

  /** What a command must meet to keep a validated store validated. */
  predicate KeepsValidated(s: Store, c: Command)
    requires Sized(s) && Allowed(s, c)
  {
    match c
    case CreateApplication(_, _, settings2) => settings2 / 64 != 3
    case ResizeKeys(a, numKeys, keyLen) => numKeys > 0 ==> LengthSuitsType(s.keyed[a].k.settings2, keyLen)
    case ResizeKeySets(a, _, _, activeLen, maxKeySize) =>
      activeLen == 16 && (maxKeySize == 16 || maxKeySize == 24) && s.keyed[a].k.settings2 < 64
    case RollKeySet(a, r) => Sets(s.keyed[a])[r].info.initialized
    case ReleaseKeys(a) => a == PICC || s.keyed[a].k.numKeySets < MIN_KEY_SETS
    case _ => true
  }

  lemma ResizedSuits(o: Owned, numKeys: nat, keyLen: nat, isApp: bool)
    requires numKeys <= MAX_KEYS
    ensures Suits(KeysResized(o, numKeys, keyLen), isApp) <==> (numKeys > 0 ==> LengthSuitsType(o.k.settings2, keyLen))
    ensures var t, want := KeysResized(o, numKeys, keyLen), numKeys * (if keyLen == 24 then 24 else 16);
      && t.k.numKeys == numKeys && t.k.keyLen == keyLen && t.k.numKeySets == 1 && t.meta == []
      && t.keys == (if |o.keys| == want then o.keys else Zeros(want))
      && t.k.settings1 == o.k.settings1 && t.k.settings2 == o.k.settings2 && t.k.versions == o.k.versions
  {
    hide LengthSuitsType;
  }

  lemma ReleasedSuits(o: Owned, isApp: bool)
    requires isApp ==> 0 < o.k.numKeySets <= MAX_KEY_SETS
    ensures Suits(Released(o), isApp) <==> !KeepsSets(o.k, isApp)
  {
  }

  lemma FreshSetsSuit(o: Owned, numKeySets: nat, numKeys: nat, activeLen: nat, maxKeySize: nat)
    requires Consistent(o) && MIN_KEY_SETS <= numKeySets <= MAX_KEY_SETS && 0 < numKeys <= MAX_KEYS
    ensures Suits(KeySetsResized(o, numKeySets, numKeys, activeLen, maxKeySize), true)
        <==> activeLen == 16 && (maxKeySize == 16 || maxKeySize == 24) && o.k.settings2 < 64
    ensures var t := KeySetsResized(o, numKeySets, numKeys, activeLen, maxKeySize);
      && HasSets(t) && t.k.numKeys == numKeys && t.k.keyLen == activeLen && t.k.maxKeySize == t.k.storageLen == maxKeySize
      && |t.keys| == numKeys * numKeySets * (if maxKeySize == 24 then 24 else 16)
      && (|t.keys| == |o.keys| ==> t.keys == o.keys) && (|t.keys| != |o.keys| ==> t.keys == Zeros(|t.keys|))
      && |Sets(t)| == numKeySets
      && forall j :: 0 <= j < numKeySets ==> Sets(t)[j].info.kind == 0 && Sets(t)[j].info.initialized
  {
    hide Suits;
    KeySetsResizedConsistent(o, numKeySets, numKeys, activeLen, maxKeySize);
    var t := KeySetsResized(o, numKeySets, numKeys, activeLen, maxKeySize);
    SuitsBySets(t);
    SetsAsList(t);
    FreshMask(numKeySets, numKeys);
    assert forall j :: numKeySets <= j < 2 * numKeySets ==> t.meta[j] == 0;
    forall j | 0 <= j < numKeySets
      ensures Sets(t)[j].info.kind == t.meta[numKeySets + j] && Sets(t)[j].info.initialized == Bit(MaskOf(t.meta, numKeySets), j)
    {
      SetInfoOf(t, j);
    }
  }

  /** All sets of fresh metadata are initialised. */
  lemma FreshMask(numKeySets: nat, numKeys: nat)
    requires MIN_KEY_SETS <= numKeySets <= MAX_KEY_SETS && 0 < numKeys <= MAX_KEYS
    ensures var mask := MaskOf(InitialMetadata(numKeySets, numKeys), numKeySets);
      mask % 2 == 1 && forall j :: 0 <= j < numKeySets ==> Bit(mask, j)
  {
    hide Bit;
    var mask := FullMask(numKeySets);
    assert mask == 2 * Pow2(numKeySets - 1) - 1;
    assert mask == mask % 256 + 256 * (mask / 256);
    forall j | 0 <= j < numKeySets
      ensures Bit(mask, j)
    {
      FullBits(numKeySets, j);
    }
  }

  lemma {:induction false} FullBits(n: nat, j: nat)
    requires j < n
    ensures Bit(Pow2(n) - 1, j)
  {
    if j > 0 {
      assert (Pow2(n) - 1) / 2 == Pow2(n - 1) - 1;
      FullBits(n - 1, j - 1);
    }
  }

  /** With one record replaced, the store is validated exactly when the new record suits. */
  lemma WithKeysValidated(s: Store, a: nat, o: Owned)
    requires Sized(s) && Validated(s) && (a < |s.aids| || a == PICC)
    ensures Sized(WithKeys(s, a, o)) && (Validated(WithKeys(s, a, o)) <==> Suits(o, a != PICC))
  {
    hide Suits;
    var t := WithKeys(s, a, o);
    assert t.keyed[a] == o && forall b :: 0 <= b < |s.keyed| && b != a ==> t.keyed[b] == s.keyed[b];
  }

  lemma CreationValidated(s: Store, c: Command)
    requires Sized(s) && Validated(s) && c.CreateApplication? && Allowed(s, c)
    ensures Validated(Effect(s, c)) <==> KeepsValidated(s, c)
  {
    hide Suits, NewApplication;
    CreatedSuits(c.settings1, c.settings2);
    var t, n := Effect(s, c), |s.aids|;
    assert t.keyed[n] == NewApplication(c.settings1, c.settings2) && |t.aids| == n + 1;
    assert forall b :: 0 <= b < |s.keyed| && b != n ==> t.keyed[b] == s.keyed[b];
  }

  lemma KeyCommandValidated(s: Store, c: Command)
    requires StoreOk(s) && Sized(s) && Validated(s) && Allowed(s, c)
    requires c.ResizeKeys? || c.ResizeKeySets? || c.RollKeySet? || c.ReleaseKeys?
    ensures Validated(Effect(s, c)) <==> KeepsValidated(s, c)
  {
    hide Suits, Consistent, LengthSuitsType, Rolled, Sets, HasSets;
    match c
    case ResizeKeys(a, numKeys, keyLen) =>
      ResizedSuits(s.keyed[a], numKeys, keyLen, a != PICC);
      WithKeysValidated(s, a, KeysResized(s.keyed[a], numKeys, keyLen));
    case ResizeKeySets(a, numKeySets, numKeys, activeLen, maxKeySize) =>
      FreshSetsSuit(s.keyed[a], numKeySets, numKeys, activeLen, maxKeySize);
      WithKeysValidated(s, a, KeySetsResized(s.keyed[a], numKeySets, numKeys, activeLen, maxKeySize));
    case RollKeySet(a, r) =>
      RollKeepsValidated(s.keyed[a], r);
      WithKeysValidated(s, a, Rolled(s.keyed[a], r));
    case ReleaseKeys(a) =>
      SuitsCount(s.keyed[a], a != PICC);
      ReleasedSuits(s.keyed[a], a != PICC);
      WithKeysValidated(s, a, Released(s.keyed[a]));
  }

  /** A command keeps a validated store validated exactly when it meets its condition. */
  lemma StepValidated(s: Store, c: Command)
    requires StoreOk(s) && Sized(s) && Validated(s) && Allowed(s, c)
    ensures Validated(Effect(s, c)) <==> KeepsValidated(s, c)
  {
    hide Suits, StoreOk, Rolled, Sets;
    match c
    case CreateApplication(_, _, _) => CreationValidated(s, c);
    case ResizeKeys(_, _, _) => KeyCommandValidated(s, c);
    case ResizeKeySets(_, _, _, _, _) => KeyCommandValidated(s, c);
    case RollKeySet(_, _) => KeyCommandValidated(s, c);
    case ReleaseKeys(_) => KeyCommandValidated(s, c);
    case _ =>
  }

  lemma SuitsCount(o: Owned, isApp: bool)
    requires Suits(o, isApp)
    ensures isApp ==> 0 < o.k.numKeySets <= MAX_KEY_SETS
  {
  }

  /** The store after the first `k` commands. */
  ghost function AfterFirst(s: Store, run: seq<Command>, room: Capacity, k: nat): (t: Store)
    requires StoreOk(s) && k <= |run|
    ensures StoreOk(t) && Sized(t)
  {
    OkIsSized(After(s, run[..k], room));
    After(s, run[..k], room)
  }

  lemma AfterNext(s: Store, run: seq<Command>, room: Capacity, k: nat)
    requires StoreOk(s) && k < |run|
    ensures AfterFirst(s, run, room, k + 1) == Step(AfterFirst(s, run, room, k), run[k], room)
  {
    hide StoreOk, Effect, Fits, Allowed;
    assert run[..k + 1][..k] == run[..k];
  }

  /** The `k`-th command is refused or meets its condition. */
  ghost predicate Keeps(s: Store, run: seq<Command>, room: Capacity, k: nat)
    requires StoreOk(s) && k < |run|
  {
    var m := AfterFirst(s, run, room, k);
    Accepts(m, run[k], room) ==> KeepsValidated(m, run[k])
  }

  lemma NextValidated(s: Store, run: seq<Command>, room: Capacity, k: nat)
    requires StoreOk(s) && k < |run| && Validated(AfterFirst(s, run, room, k))
    ensures Validated(AfterFirst(s, run, room, k + 1)) <==> Keeps(s, run, room, k)
  {
    hide StoreOk, Validated, Effect, Fits, Allowed, KeepsValidated, AfterFirst;
    var m := AfterFirst(s, run, room, k);
    AfterNext(s, run, room, k);
    if Accepts(m, run[k], room) { StepValidated(m, run[k]); }
  }

  lemma {:induction false} FirstValidated(s: Store, run: seq<Command>, room: Capacity, k: nat)
    requires StoreOk(s) && Sized(s) && Validated(s) && k <= |run|
    requires forall j :: 0 <= j < k ==> Keeps(s, run, room, j)
    ensures Validated(AfterFirst(s, run, room, k))
  {
    hide StoreOk, Validated, Keeps;
    if k == 0 {
      assert run[..0] == [];
    } else {
      FirstValidated(s, run, room, k - 1);
      NextValidated(s, run, room, k - 1);
    }
  }

  /** A run leaves the credential validated after each of its commands exactly when every
      command it accepts meets its condition. */
  lemma RunValidated(s: Store, run: seq<Command>, room: Capacity)
    requires StoreOk(s) && Sized(s) && Validated(s)
    ensures (forall k: nat :: k <= |run| ==> Validated(AfterFirst(s, run, room, k)))
        <==> (forall k: nat :: k < |run| ==> Keeps(s, run, room, k))
  {
    hide StoreOk, Validated, Keeps, AfterFirst;
    if forall k: nat :: k < |run| ==> Keeps(s, run, room, k) {
      forall k: nat | k <= |run|
        ensures Validated(AfterFirst(s, run, room, k))
      {
        FirstValidated(s, run, room, k);
      }
    }
    if forall k: nat :: k <= |run| ==> Validated(AfterFirst(s, run, room, k)) {
      forall k: nat | k < |run|
        ensures Keeps(s, run, room, k)
      {
        NextValidated(s, run, room, k);
      }
    }
  }
}
