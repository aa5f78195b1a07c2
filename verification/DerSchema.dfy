/** What the credential format describes: a card, its PICC record, applications with
    their keys, and files. Sizes of the pools that hold keys and file data bound it. */
module DerSchema {
  import opened Bytes
  import opened Limits
  import opened DerTlv

  const MAX_FILE_NUMBER: nat := 31
  const ATS_MAX: nat := 20
  const U24_MAX: nat := 16777215
  const AUTH_ALL: nat := 63

  datatype Key = Key(value: octets, version: byte)

  datatype KeySet = KeySet(version: byte, kind: byte, initialized: bool, keys: seq<Key>)

  /** An application keeps one list of keys or several sets of them. */
  datatype KeyStore = Plain(keys: seq<Key>) | Sets(maxSize: nat, settings: byte, sets: seq<KeySet>)

  datatype Card = Card(generation: nat, storage: nat, uid: octets, provenance: nat,
                       hardware: Option<octets>, software: Option<octets>)

  /** `auth` is the mask of allowed authentication commands; without one the key type
      decides. */
  datatype Picc = Picc(ks1: byte, ks2: byte, auth: Option<byte>, randomId: bool, formatDisabled: bool, ats: octets,
                       sak: Option<byte>, atqa: Option<octets>, smDisable: Option<byte>, keys: seq<Key>,
                       preferred: Option<byte>, legacyId: bool)

  datatype App = App(aid: octets, isoFid: Option<nat>, dfName: octets, ks1: byte, ks2: byte, auth: Option<byte>,
                     store: KeyStore, smDisable: Option<byte>, preferred: Option<byte>)

  datatype Contents =
    | Data(size: nat, known: octets, complete: bool)
    | Value(lower: int, upper: int, current: int, limited: byte, limit: int)
    | Records(size: nat, max: nat, count: nat, complete: bool, stored: seq<octets>)

  datatype File = File(owner: nat, number: byte, kind: byte, comm: byte, rights: nat, isoFid: Option<nat>,
                       contents: Contents)

  datatype Credential = Credential(card: Card, picc: Picc, apps: seq<App>, files: seq<File>)

  // ---- Keys -----------------------------------------------------------------------------

  predicate KeysOf(keys: seq<Key>, length: nat)
  {
    forall i :: 0 <= i < |keys| ==> |keys[i].value| == length
  }

  function NumKeys(s: KeyStore): nat
  {
    match s
    case Plain(keys) => |keys|
    case Sets(_, _, sets) => if sets == [] then 0 else |sets[0].keys|
  }

  /** Octets of the key pool a record takes. */
  function KeyUse(ks2: byte, s: KeyStore): nat
  {
    match s
    case Plain(keys) => |keys| * Stride(KeyLength(ks2))
    case Sets(maxSize, _, sets) => (|sets| * NumKeys(s)) * Stride(maxSize)
  }

  function AppsKeyUse(apps: seq<App>): nat
  {
    if apps == [] then 0
    else AppsKeyUse(apps[..|apps| - 1]) + KeyUse(apps[|apps| - 1].ks2, apps[|apps| - 1].store)
  }

  function TotalKeyUse(p: Picc, apps: seq<App>): nat
  {
    |p.keys| * Stride(KeyLength(p.ks2)) + AppsKeyUse(apps)
  }

  /** Octets of the file pool a file takes. */
  function StoredSize(c: Contents): nat
  {
    match c
    case Data(_, known, _) => |known|
    case Value(_, _, _, _, _) => 0
    case Records(size, _, _, _, stored) => |stored| * size
  }

  function TotalStored(files: seq<File>): nat
  {
    if files == [] then 0
    else TotalStored(files[..|files| - 1]) + StoredSize(files[|files| - 1].contents)
  }

  // ---- Masks ------------------------------------------------------------------------------

  predicate Bit(x: byte, weight: nat)
    requires weight > 0
  {
    (x / weight) % 2 == 1
  }

  predicate Covers(allowed: byte, mask: byte)
  {
    forall w :: w in {1, 2, 4, 8, 16, 32, 64, 128} && Bit(mask, w) ==> Bit(allowed, w)
  }

  /** The authentication commands a key type can answer. */
  function PossibleAuth(ks2: byte, generation: nat): (m: byte)
    ensures m < 32
  {
    if ks2 / 64 == 2 then (if generation >= 2 then 28 else 4)
    else if ks2 / 64 == 1 then 2
    else 3
  }

  function AuthMask(auth: Option<byte>, ks2: byte, generation: nat): byte
  {
    if auth.Some? then auth.value else PossibleAuth(ks2, generation)
  }

  predicate AuthOk(auth: Option<byte>, preferred: Option<byte>, ks2: byte, generation: nat)
  {
    var mask := AuthMask(auth, ks2, generation);
    && mask <= AUTH_ALL
    && (preferred.Some? ==> preferred.value in {1, 2, 4, 8, 16, 32} && Bit(mask, preferred.value))
    && Covers(PossibleAuth(ks2, generation) + 32, mask)
    && (generation < 2 ==> !Bit(mask, 8) && !Bit(mask, 16))
  }

  // ---- Validity ---------------------------------------------------------------------------

  predicate Reserved(fid: nat)
  {
    fid == 0 || fid == 0x3F00 || fid == 0x3FFF || fid == 0xFFFF
  }

  predicate FidOk(fid: Option<nat>)
  {
    fid.Some? ==> fid.value < 65536 && !Reserved(fid.value)
  }

  predicate CardOk(c: Card)
  {
    && 1 <= c.generation <= 3 && c.provenance <= 2 && c.storage <= 0xFFFF_FFFF
    && (|c.uid| == 4 || |c.uid| == 7 || |c.uid| == 10)
    && (c.hardware.Some? ==> |c.hardware.value| == 7) && (c.software.Some? ==> |c.software.value| == 7)
  }

  predicate PlainKeysOk(keys: seq<Key>, ks2: byte)
  {
    |keys| <= MAX_KEYS && (keys != [] ==> ks2 / 64 != 3) && KeysOf(keys, KeyLength(ks2))
  }

  predicate SetOk(s: KeySet, count: nat, maxSize: nat)
  {
    s.kind <= 2 && SetKeyLength(s.kind) <= maxSize && |s.keys| == count && KeysOf(s.keys, SetKeyLength(s.kind))
  }

  predicate StoreOk(s: KeyStore, ks2: byte, generation: nat)
  {
    match s
    case Plain(keys) => PlainKeysOk(keys, ks2)
    case Sets(maxSize, _, sets) =>
      && generation >= 2 && (maxSize == 16 || maxSize == 24)
      && 2 <= |sets| <= MAX_KEY_SETS && 0 < NumKeys(s) <= MAX_KEYS
      && sets[0].initialized && sets[0].kind as int == ks2 / 64
      && forall i :: 0 <= i < |sets| ==> SetOk(sets[i], NumKeys(s), maxSize)
  }

  predicate PiccOk(p: Picc, generation: nat)
  {
    && (p.legacyId ==> p.randomId) && PlainKeysOk(p.keys, p.ks2) && |p.ats| <= ATS_MAX
    && (p.atqa.Some? ==> |p.atqa.value| == 2) && (p.smDisable.Some? ==> p.smDisable.value < 8)
    && AuthOk(p.auth, p.preferred, p.ks2, generation)
  }

  predicate AppOk(a: App, generation: nat)
  {
    && |a.aid| == 3 && |a.dfName| <= 16 && FidOk(a.isoFid) && StoreOk(a.store, a.ks2, generation)
    && (a.smDisable.Some? ==> a.smDisable.value < 8) && AuthOk(a.auth, a.preferred, a.ks2, generation)
  }

  predicate IsInt32(v: int)
  {
    -0x8000_0000 <= v < 0x8000_0000
  }

  predicate ContentsOk(kind: byte, c: Contents)
  {
    match c
    case Data(size, known, complete) =>
      (kind == 0 || kind == 1) && 0 < size <= U24_MAX && |known| <= size && (complete ==> |known| == size)
    case Value(lower, upper, current, limited, limit) =>
      && kind == 2 && IsInt32(lower) && IsInt32(upper) && lower <= current <= upper
      && limited <= 3 && 0 <= limit < 0x8000_0000 && (limited % 2 == 0 ==> limit == 0)
    case Records(size, max, count, complete, stored) =>
      && (kind == 3 || kind == 4) && 0 < size <= U24_MAX && 0 < max <= U24_MAX && count <= max
      && (forall i :: 0 <= i < |stored| ==> |stored[i]| == size)
      && (|stored| > count ==> |stored| == max)
      && (complete ==> |stored| == count || |stored| == max)
      && (kind == 4 ==> max >= 2)
  }

  predicate NibbleOk(n: nat, keys: nat)
  {
    n >= 14 || n < keys
  }

  predicate RightsOk(rights: nat, keys: nat)
  {
    && rights < 65536 && NibbleOk(rights % 16, keys) && NibbleOk((rights / 16) % 16, keys)
    && NibbleOk((rights / 256) % 16, keys) && NibbleOk(rights / 4096, keys)
  }

  predicate FileOk(f: File, p: Picc, apps: seq<App>)
  {
    && (f.owner == PICC_OWNER || f.owner < |apps|)
    && f.number as int <= MAX_FILE_NUMBER && f.kind <= 4 && f.comm % 128 < 4 && FidOk(f.isoFid)
    && RightsOk(f.rights, if f.owner == PICC_OWNER then |p.keys| else NumKeys(apps[f.owner].store))
    && ContentsOk(f.kind, f.contents)
  }

  predicate Distinct(files: seq<File>)
  {
    forall i, j :: 0 <= i < j < |files| ==> files[i].owner != files[j].owner || files[i].number != files[j].number
  }

  /** The model check that precedes every encoding and ends every decoding. */
  predicate Valid(c: Credential)
  {
    && CardOk(c.card) && PiccOk(c.picc, c.card.generation)
    && |c.apps| <= MAX_APPS && |c.files| <= MAX_FILES
    && (forall i :: 0 <= i < |c.apps| ==> AppOk(c.apps[i], c.card.generation))
    && (forall i, j :: 0 <= i < j < |c.apps| ==> c.apps[i].aid != c.apps[j].aid)
    && (forall i :: 0 <= i < |c.files| ==> FileOk(c.files[i], c.picc, c.apps))
    && Distinct(c.files)
    && TotalKeyUse(c.picc, c.apps) <= KEY_POOL_SIZE && TotalStored(c.files) <= FILE_POOL_SIZE
  }

  // ---- Normal form ------------------------------------------------------------------------

  function FilesOf(files: seq<File>, owner: nat): seq<File>
  {
    if files == [] then []
    else FilesOf(files[..|files| - 1], owner)
         + (if files[|files| - 1].owner == owner then [files[|files| - 1]] else [])
  }

  /** The files of the first `n` applications, application by application. */
  function Grouped(files: seq<File>, n: nat): seq<File>
  {
    if n == 0 then [] else Grouped(files, n - 1) + FilesOf(files, n - 1)
  }

  /** Files application by application, the PICC's last. */
  function Regrouped(files: seq<File>, n: nat): seq<File>
  {
    Grouped(files, n) + FilesOf(files, PICC_OWNER)
  }

  /** Records reserved but never written are not part of the encoding. */
  function Written(c: Contents): Contents
  {
    if c.Records? && |c.stored| > c.count then c.(stored := c.stored[..c.count]) else c
  }

  function NormalFile(f: File): File
  {
    f.(contents := Written(f.contents))
  }

  function NormalFiles(files: seq<File>): (s: seq<File>)
    ensures |s| == |files| && forall i :: 0 <= i < |s| ==> s[i] == NormalFile(files[i])
  {
    seq(|files|, i requires 0 <= i < |files| => NormalFile(files[i]))
  }

  function NormalApp(a: App, generation: nat): App
  {
    a.(auth := Some(AuthMask(a.auth, a.ks2, generation)))
  }

  function NormalApps(apps: seq<App>, generation: nat): (s: seq<App>)
    ensures |s| == |apps| && forall i :: 0 <= i < |s| ==> s[i] == NormalApp(apps[i], generation)
  {
    seq(|apps|, i requires 0 <= i < |apps| => NormalApp(apps[i], generation))
  }

  function NormalPicc(p: Picc, generation: nat): Picc
  {
    p.(auth := Some(AuthMask(p.auth, p.ks2, generation)))
  }

  /** The same credential as the format keeps it: authentication masks spelled out,
      unwritten records dropped, files grouped by owner. */
  function Normal(c: Credential): Credential
  {
    var g := c.card.generation;
    Credential(c.card, NormalPicc(c.picc, g), NormalApps(c.apps, g), Regrouped(NormalFiles(c.files), |c.apps|))
  }
}
