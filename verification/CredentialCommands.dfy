/** The operations on a credential as commands: when each is accepted, what it makes of
    the store, and what a run of them makes of it. Room is counted in the octets the
    store holds, since the pools keep no others. */
module CredentialCommands {
  import opened Bytes
  import opened Limits
  import opened SlicePools
  import opened CredentialStore
  import opened KeySets

  datatype Command =
    | CreateApplication(aid: Aid, settings1: byte, settings2: byte)
    | DeleteApplication(app: nat)
    | CreateFile(app: nat, number: byte)
    | DeleteFile(owner: nat, number: byte)
    | ResizeFile(owner: nat, number: byte, length: nat)
    | WriteFile(owner: nat, number: byte, at: nat, data: seq<byte>)
    | ResizeKeys(app: nat, numKeys: nat, keyLen: nat)
    | ResizeKeySets(app: nat, numKeySets: nat, numKeys: nat, activeLen: nat, maxKeySize: nat)
    | RollKeySet(app: nat, set_: nat)
    | ReleaseKeys(app: nat)
    | FormatPicc

  /** What a command demands of the store, apart from room in the pools. */
  predicate Allowed(s: Store, c: Command)
    requires Sized(s)
  {
    match c
    case CreateApplication(aid, _, settings2) =>
      |s.aids| < MAX_APPS && aid !in s.aids && 0 < settings2 % 16 <= MAX_KEYS
    case DeleteApplication(a) => a < |s.aids|
    case CreateFile(a, number) =>
      a < |s.aids| && |s.files| < MAX_FILES && FindFile(s.files, a, number) == |s.files|
    case DeleteFile(owner, number) => FindFile(s.files, owner, number) < |s.files|
    case ResizeFile(owner, number, length) =>
      FindFile(s.files, owner, number) < |s.files| && length <= MAX_FILE_DATA
    case WriteFile(owner, number, at, data) =>
      var i := FindFile(s.files, owner, number);
      i < |s.files| && at + |data| <= |s.files[i].data|
    case ResizeKeys(a, numKeys, keyLen) =>
      (a < |s.aids| || a == PICC) && numKeys <= MAX_KEYS && keyLen <= MAX_KEY_LEN
    case ResizeKeySets(a, numKeySets, numKeys, activeLen, maxKeySize) =>
      && a < |s.aids| && MIN_KEY_SETS <= numKeySets <= MAX_KEY_SETS && 0 < numKeys <= MAX_KEYS
      && activeLen <= MAX_KEY_LEN && maxKeySize <= MAX_KEY_LEN
    case RollKeySet(a, r) => a < |s.aids| && HasSets(s.keyed[a]) && 0 < r < s.keyed[a].k.numKeySets
    case ReleaseKeys(a) => a < |s.aids| || a == PICC
    case FormatPicc => true
  }

  /** The record array has a place for every application and the PICC. */
  predicate Sized(s: Store)
  {
    |s.keyed| == MAX_APPS + 1 && |s.aids| <= MAX_APPS
  }

  /** What an accepted command makes of the store. */
  function Effect(s: Store, c: Command): (t: Store)
    requires Sized(s) && Allowed(s, c)
    ensures Sized(t)
  {
    match c
    case CreateApplication(aid, settings1, settings2) =>
      s.(keyed := s.keyed[|s.aids| := NewApplication(settings1, settings2)], aids := s.aids + [aid])
    case DeleteApplication(a) => ApplicationDeleted(s, a)
    case CreateFile(a, number) => s.(files := s.files + [NewFile(a, number)])
    case DeleteFile(owner, number) =>
      var i := FindFile(s.files, owner, number);
      s.(files := s.files[..i] + s.files[i + 1..])
    case ResizeFile(owner, number, length) =>
      var i := FindFile(s.files, owner, number);
      s.(files := s.files[i := s.files[i].(data := Refilled(s.files[i].data, length))])
    case WriteFile(owner, number, at, data) =>
      var i := FindFile(s.files, owner, number);
      s.(files := s.files[i := s.files[i].(data := Overwritten(s.files[i].data, at, data))])
    case ResizeKeys(a, numKeys, keyLen) => WithKeys(s, a, KeysResized(s.keyed[a], numKeys, keyLen))
    case ResizeKeySets(a, numKeySets, numKeys, activeLen, maxKeySize) =>
      WithKeys(s, a, KeySetsResized(s.keyed[a], numKeySets, numKeys, activeLen, maxKeySize))
    case RollKeySet(a, r) => WithKeys(s, a, Rolled(s.keyed[a], r))
    case ReleaseKeys(a) => WithKeys(s, a, Released(s.keyed[a]))
    case FormatPicc => Formatted(s)
  }

  // ---- Room -------------------------------------------------------------------------

  datatype Capacity = Capacity(files: nat, keys: nat)

  function KeyOctets(keyed: seq<Owned>): nat
  {
    if keyed == [] then 0 else |keyed[0].keys| + KeyOctets(keyed[1..])
  }

  function FileOctets(files: seq<File>): nat
  {
    if files == [] then 0 else |files[0].data| + FileOctets(files[1..])
  }

  /** Whether `want` octets fit once record `a` has given up its keys. */
  predicate KeysFit(s: Store, a: nat, want: nat, room: Capacity)
    requires a < |s.keyed|
  {
    KeyOctets(s.keyed) - |s.keyed[a].keys| + want <= room.keys
  }

  /** Whether the pools can hold what an allowed command asks for. */
  predicate Fits(s: Store, c: Command, room: Capacity)
    requires Sized(s) && Allowed(s, c)
  {
    match c
    case CreateApplication(_, _, settings2) => KeysFit(s, |s.aids|, (settings2 % 16) * Stride(KeyLength(settings2)), room)
    case ResizeFile(owner, number, length) =>
      FileOctets(s.files) - |s.files[FindFile(s.files, owner, number)].data| + length <= room.files
    case ResizeKeys(a, numKeys, keyLen) => KeysFit(s, a, numKeys * Stride(keyLen), room)
    case ResizeKeySets(a, numKeySets, numKeys, _, maxKeySize) =>
      KeysFit(s, a, SetsFootprint(numKeySets, numKeys, maxKeySize), room)
    case _ => true
  }

  predicate Accepts(s: Store, c: Command, room: Capacity)
    requires Sized(s)
  {
    Allowed(s, c) && Fits(s, c, room)
  }

  /** A command that is not accepted changes nothing. */
  function Step(s: Store, c: Command, room: Capacity): Store
    requires Sized(s)
  {
    if Accepts(s, c, room) then Effect(s, c) else s
  }

  lemma {:induction false} KeyOctetsCounted(slots: seq<Slice>, keyed: seq<Owned>)
    requires |slots| == |keyed| && forall a :: 0 <= a < |slots| ==> slots[a].length == |keyed[a].keys|
    ensures TotalLength(slots) == KeyOctets(keyed)
  {
    if slots != [] { KeyOctetsCounted(slots[1..], keyed[1..]); }
  }

  lemma {:induction false} FileOctetsCounted(slots: seq<Slice>, files: seq<File>)
    requires |slots| == |files| && forall i :: 0 <= i < |slots| ==> slots[i].length == |files[i].data|
    ensures TotalLength(slots) == FileOctets(files)
  {
    if slots != [] { FileOctetsCounted(slots[1..], files[1..]); }
  }

  // ---- What every command keeps -------------------------------------------------------

  lemma CreationKeepsOk(s: Store, c: Command)
    requires StoreOk(s) && c.CreateApplication? && Allowed(s, c)
    ensures StoreOk(Effect(s, c))
  {
    assert Consistent(NewApplication(c.settings1, c.settings2));
  }

  lemma KeyCommandKeepsOk(s: Store, c: Command)
    requires StoreOk(s) && Allowed(s, c) && (c.ResizeKeys? || c.ResizeKeySets? || c.RollKeySet? || c.ReleaseKeys?)
    ensures StoreOk(Effect(s, c))
  {
    hide Rolled;
    assert Consistent(s.keyed[c.app]);
    KeysKeepOk(s, c.app, Effect(s, c).keyed[c.app]);
  }

  lemma FileCommandKeepsOk(s: Store, c: Command)
    requires StoreOk(s) && Allowed(s, c) && (c.CreateFile? || c.DeleteFile? || c.ResizeFile? || c.WriteFile?)
    ensures StoreOk(Effect(s, c))
  {
    hide Rolled;
    FilesKeepOk(s, Effect(s, c).files);
  }

  /** Every accepted command keeps the store well formed. */
  lemma EffectKeepsOk(s: Store, c: Command)
    requires StoreOk(s) && Allowed(s, c)
    ensures StoreOk(Effect(s, c))
  {
    match c
    case CreateApplication(_, _, _) => CreationKeepsOk(s, c);
    case DeleteApplication(a) => DeletionKeepsOk(s, a);
    case FormatPicc =>
    case ResizeKeys(_, _, _) => KeyCommandKeepsOk(s, c);
    case ResizeKeySets(_, _, _, _, _) => KeyCommandKeepsOk(s, c);
    case RollKeySet(_, _) => KeyCommandKeepsOk(s, c);
    case ReleaseKeys(_) => KeyCommandKeepsOk(s, c);
    case _ => FileCommandKeepsOk(s, c);
  }

  /** The store after a run, refused commands skipped. */
  ghost function After(s: Store, run: seq<Command>, room: Capacity): (t: Store)
    requires StoreOk(s)
    ensures StoreOk(t)
  {
    hide StoreOk, Effect, Fits;
    if run == [] then s
    else
      var last := |run| - 1;
      var m := After(s, run[..last], room);
      OkIsSized(m);
      if Accepts(m, run[last], room) then
        EffectKeepsOk(m, run[last]);
        Effect(m, run[last])
      else m
  }

  lemma OkIsSized(s: Store)
    requires StoreOk(s)
    ensures Sized(s)
  {
  }

  /** Which commands of a run are accepted. */
  ghost function Acceptance(s: Store, run: seq<Command>, room: Capacity): (r: seq<bool>)
    requires StoreOk(s)
    ensures |r| == |run|
  {
    hide Fits, Effect;
    if run == [] then []
    else
      var last := |run| - 1;
      Acceptance(s, run[..last], room) + [Accepts(After(s, run[..last], room), run[last], room)]
  }

  // ---- What a run can make ------------------------------------------------------------

  /** No file stores more than 2048 octets. */
  ghost predicate FilesSmall(files: seq<File>)
  {
    forall i :: 0 <= i < |files| ==> |files[i].data| <= 2048
  }

  lemma DeletionKeepsSmall(files: seq<File>, a: nat)
    requires FilesSmall(files)
    ensures FilesSmall(DropOwner(files, a))
  {
    hide DropOwner;
    forall i | 0 <= i < |DropOwner(files, a)|
      ensures |DropOwner(files, a)[i].data| <= 2048
    {
      assert DropOwner(files, a)[i] == Renumbered(files[Origin(files, a, i)], a);
    }
  }

  lemma EffectKeepsSmall(s: Store, c: Command)
    requires Sized(s) && Allowed(s, c) && FilesSmall(s.files)
    ensures FilesSmall(Effect(s, c).files)
  {
    hide Rolled, DropOwner, NewApplication, KeysResized, KeySetsResized, Released;
    if c.DeleteApplication? { DeletionKeepsSmall(s.files, c.app); }
  }

  /** Whatever a run does, there are at most 28 applications and 32 files, and none of these
      outgrows 2048 octets. */
  lemma {:induction false} RunKeepsSmall(s: Store, run: seq<Command>, room: Capacity)
    requires StoreOk(s) && FilesSmall(s.files)
    ensures var t := After(s, run, room); |t.aids| <= 28 && |t.files| <= 32 && FilesSmall(t.files)
    decreases |run|
  {
    hide Effect, Fits, FilesSmall;
    if run != [] {
      var last := |run| - 1;
      RunKeepsSmall(s, run[..last], room);
      var m := After(s, run[..last], room);
      OkIsSized(m);
      if Accepts(m, run[last], room) { EffectKeepsSmall(m, run[last]); }
    }
  }
}
