/** The elements each part of a credential is written as, in the order they are written. */
module DerEncoder {
  import opened Bytes
  import opened Limits
  import opened DerTlv
  import opened DerInteger
  import opened DerWriter
  import opened DerFields
  import opened DerRecords
  import opened DerSchema

  const TAG_SEQUENCE: byte := 0x30
  const TAG_OCTETS: byte := 0x04
  const FORMAT_VERSION: nat := 6

  const KEY_ORDER: octets := [0x80, 0x81, 0x82]
  const SET_ORDER: octets := [0x80, 0x81, 0x82, 0x83, 0xA4]
  const SETS_ORDER: octets := [0x80, 0x81, 0x82, 0xA3]
  const DATA_ORDER: octets := [0x80, 0x81, 0x82]
  const VALUE_ORDER: octets := [0x80, 0x81, 0x82, 0x83, 0x84]
  const RECORD_ORDER: octets := [0x80, 0x81, 0x82, 0x83, 0xA4]
  const FILE_ORDER: octets := [0x80, 0x81, 0x82, 0x83, 0x84, 0xA5, 0xA6, 0xA7, 0xA8, 0xA9]
  const CARD_ORDER: octets := [0x80, 0x81, 0x82, 0x83, 0x84, 0x85, 0x86]
  const PICC_ORDER: octets := [0x80, 0x81, 0x82, 0x83, 0x84, 0x85, 0x86, 0x87, 0x88, 0xA9, 0xAA, 0x8B, 0xAC, 0xAD, 0xAE,
                               0x8F, 0x90]
  const APP_ORDER: octets := [0x80, 0x81, 0x82, 0x83, 0x84, 0x85, 0xA6, 0xA7, 0xA8, 0x89, 0xAA, 0x8B, 0x8C]
  const CREDENTIAL_ORDER: octets := [0x80, 0xA1, 0xA2, 0xA3]

  // ---- Components -------------------------------------------------------------------------

  function Int(tag: byte, v: int): Option<Node>
  {
    Some(Prim(tag, IntOctets(v)))
  }

  function Octet(tag: byte, v: byte): Option<Node>
  {
    Some(Prim(tag, [v]))
  }

  function OctetString(tag: byte, v: octets): Option<Node>
  {
    Some(Prim(tag, v))
  }

  function Bool(tag: byte, v: bool): Option<Node>
  {
    Some(Prim(tag, [if v then 0xFF else 0x00]))
  }

  function Flag(tag: byte, v: bool): Option<Node>
  {
    if v then Bool(tag, true) else None
  }

  function OptOctet(tag: byte, v: Option<byte>): Option<Node>
  {
    if v.Some? then Octet(tag, v.value) else None
  }

  function OptBytes(tag: byte, v: Option<octets>): Option<Node>
  {
    if v.Some? then OctetString(tag, v.value) else None
  }

  function NonEmpty(tag: byte, v: octets): Option<Node>
  {
    if v != [] then OctetString(tag, v) else None
  }

  function Pair(v: nat): (b: octets)
    requires v < 65536
    ensures |b| == 2
  {
    [v / 256, v % 256]
  }

  function OptPair(tag: byte, v: Option<nat>): Option<Node>
    requires v.Some? ==> v.value < 65536
  {
    if v.Some? then OctetString(tag, Pair(v.value)) else None
  }

  // ---- Keys -------------------------------------------------------------------------------

  function KeySlots(slot: nat, k: Key): Slots
  {
    [Int(0x80, slot), OctetString(0x81, k.value), Octet(0x82, k.version)]
  }

  function KeyItems(keys: seq<Key>): (items: seq<seq<Node>>)
    ensures |items| == |keys| && forall i :: 0 <= i < |keys| ==> items[i] == Flatten(KeySlots(i, keys[i]))
  {
    seq(|keys|, i requires 0 <= i < |keys| => Flatten(KeySlots(i, keys[i])))
  }

  function KeyList(keys: seq<Key>): seq<Node>
  {
    Listed(TAG_SEQUENCE, KeyItems(keys))
  }

  function SetSlots(number: nat, s: KeySet): Slots
  {
    [Int(0x80, number), Octet(0x81, s.version), Int(0x82, s.kind), Bool(0x83, s.initialized),
     Some(Cons(0xA4, KeyList(s.keys)))]
  }

  function SetItems(sets: seq<KeySet>): (items: seq<seq<Node>>)
    ensures |items| == |sets| && forall i :: 0 <= i < |sets| ==> items[i] == Flatten(SetSlots(i, sets[i]))
  {
    seq(|sets|, i requires 0 <= i < |sets| => Flatten(SetSlots(i, sets[i])))
  }

  function SetsSlots(count: nat, maxSize: nat, settings: byte, sets: seq<KeySet>): Slots
  {
    [Int(0x80, count), Int(0x81, maxSize), Octet(0x82, settings),
     Some(Cons(0xA3, Listed(TAG_SEQUENCE, SetItems(sets))))]
  }

  // ---- Files ------------------------------------------------------------------------------

  function DataSlots(size: nat, known: octets, complete: bool): Slots
  {
    [Int(0x80, size), NonEmpty(0x81, known), Bool(0x82, complete)]
  }

  function ValueSlots(lower: int, upper: int, current: int, limited: byte, limit: int): Slots
  {
    [Int(0x80, lower), Int(0x81, upper), Int(0x82, current), Octet(0x83, limited),
     if limit != 0 then Int(0x84, limit) else None]
  }

  function RecordList(stored: seq<octets>): (ns: seq<Node>)
    ensures |ns| == |stored| && forall i :: 0 <= i < |stored| ==> ns[i] == Prim(TAG_OCTETS, stored[i])
  {
    seq(|stored|, i requires 0 <= i < |stored| => Prim(TAG_OCTETS, stored[i]))
  }

  /** Only records that were written are encoded. */
  function RecordSlots(size: nat, max: nat, count: nat, complete: bool, stored: seq<octets>): Slots
  {
    [Int(0x80, size), Int(0x81, max), Int(0x82, count), Bool(0x83, complete),
     Some(Cons(0xA4, RecordList(if |stored| > count then stored[..count] else stored)))]
  }

  function ContentsNode(c: Contents): Node
  {
    match c
    case Data(size, known, complete) => Cons(0xA5, Flatten(DataSlots(size, known, complete)))
    case Value(lower, upper, current, limited, limit) =>
      Cons(0xA6, Flatten(ValueSlots(lower, upper, current, limited, limit)))
    case Records(size, max, count, complete, stored) =>
      Cons(0xA7, Flatten(RecordSlots(size, max, count, complete, stored)))
  }

  function FileSlots(f: File): Slots
    requires f.rights < 65536 && FidOk(f.isoFid)
  {
    var node := ContentsNode(f.contents);
    [Int(0x80, f.number), Int(0x81, f.kind), Octet(0x82, f.comm), OctetString(0x83, Pair(f.rights)), OptPair(0x84, f.isoFid),
     if f.contents.Data? then Some(node) else None,
     if f.contents.Value? then Some(node) else None,
     if f.contents.Records? then Some(node) else None, None, None]
  }

  predicate Writable(f: File)
  {
    f.rights < 65536 && FidOk(f.isoFid)
  }

  predicate AllWritable(files: seq<File>)
  {
    forall i :: 0 <= i < |files| ==> Writable(files[i])
  }

  function FileItems(files: seq<File>): (items: seq<seq<Node>>)
    requires AllWritable(files)
    ensures |items| == |files| && forall i :: 0 <= i < |files| ==> items[i] == Flatten(FileSlots(files[i]))
  {
    seq(|files|, i requires 0 <= i < |files| => Flatten(FileSlots(files[i])))
  }

  /** The files of one owner, in the order the credential keeps them. */
  function FileList(files: seq<File>, owner: nat): seq<Node>
    requires AllWritable(FilesOf(files, owner))
  {
    Listed(TAG_SEQUENCE, FileItems(FilesOf(files, owner)))
  }

  // ---- Records of the credential ----------------------------------------------------------

  function CardSlots(c: Card): Slots
  {
    [Int(0x80, c.generation), Int(0x81, c.storage), OctetString(0x82, c.uid), Int(0x83, c.provenance), None,
     OptBytes(0x85, c.hardware), OptBytes(0x86, c.software)]
  }

  function PiccSettings(p: Picc, generation: nat): (s: Slots)
    ensures |s| == 9
  {
    [Octet(0x80, p.ks1), Octet(0x81, p.ks2), Int(0x82, AuthMask(p.auth, p.ks2, generation)),
     Flag(0x83, p.randomId), Flag(0x84, p.formatDisabled), NonEmpty(0x85, p.ats), OptOctet(0x86, p.sak),
     OptBytes(0x87, p.atqa), OptOctet(0x88, p.smDisable)]
  }

  function PiccContents(p: Picc, files: seq<File>): (s: Slots)
    requires AllWritable(FilesOf(files, PICC_OWNER))
    ensures |s| == 8
  {
    [Some(Cons(0xA9, KeyList(p.keys))), Some(Cons(0xAA, FileList(files, PICC_OWNER))), None, None, None, None,
     if p.preferred.Some? then Int(0x8F, p.preferred.value) else None, Flag(0x90, p.legacyId)]
  }

  function PiccSlots(p: Picc, generation: nat, files: seq<File>): Slots
    requires AllWritable(FilesOf(files, PICC_OWNER))
  {
    PiccSettings(p, generation) + PiccContents(p, files)
  }

  function AppSlots(a: App, owner: nat, generation: nat, files: seq<File>): Slots
    requires FidOk(a.isoFid) && AllWritable(FilesOf(files, owner))
  {
    [OctetString(0x80, a.aid), OptPair(0x81, a.isoFid), NonEmpty(0x82, a.dfName), Octet(0x83, a.ks1), Octet(0x84, a.ks2),
     Int(0x85, AuthMask(a.auth, a.ks2, generation)),
     if a.store.Plain? then Some(Cons(0xA6, KeyList(a.store.keys))) else None,
     Some(Cons(0xA7, FileList(files, owner))),
     if a.store.Sets?
     then Some(Cons(0xA8, Flatten(SetsSlots(NumKeys(a.store), a.store.maxSize, a.store.settings, a.store.sets))))
     else None,
     None, None, OptOctet(0x8B, a.smDisable),
     if a.preferred.Some? then Int(0x8C, a.preferred.value) else None]
  }

  predicate AppsWritable(apps: seq<App>, files: seq<File>)
  {
    forall i :: 0 <= i < |apps| ==> FidOk(apps[i].isoFid) && AllWritable(FilesOf(files, i))
  }

  function AppItems(apps: seq<App>, generation: nat, files: seq<File>): (items: seq<seq<Node>>)
    requires AppsWritable(apps, files)
    ensures |items| == |apps|
    ensures forall i :: 0 <= i < |apps| ==> items[i] == Flatten(AppSlots(apps[i], i, generation, files))
  {
    seq(|apps|, i requires 0 <= i < |apps| => Flatten(AppSlots(apps[i], i, generation, files)))
  }

  predicate CredentialWritable(c: Credential)
  {
    AppsWritable(c.apps, c.files) && AllWritable(FilesOf(c.files, PICC_OWNER))
  }

  function CredentialSlots(c: Credential): Slots
    requires CredentialWritable(c)
  {
    [Int(0x80, FORMAT_VERSION), Some(Cons(0xA1, Flatten(CardSlots(c.card)))),
     Some(Cons(0xA2, Flatten(PiccSlots(c.picc, c.card.generation, c.files)))),
     Some(Cons(0xA3, Listed(TAG_SEQUENCE, AppItems(c.apps, c.card.generation, c.files))))]
  }

  lemma {:induction false} FilesOfFrom(files: seq<File>, owner: nat)
    ensures forall i :: 0 <= i < |FilesOf(files, owner)| ==>
      FilesOf(files, owner)[i] in files && FilesOf(files, owner)[i].owner == owner
  {
    if files != [] {
      FilesOfFrom(files[..|files| - 1], owner);
    }
  }

  lemma ValidIsWritable(c: Credential)
    requires Valid(c)
    ensures CredentialWritable(c)
  {
    forall owner: nat
      ensures AllWritable(FilesOf(c.files, owner))
    {
      FilesOfFrom(c.files, owner);
    }
  }

  /** Encodes a credential that passes the model check; anything else is refused. */
  method EncodeCredential(c: Credential, out: array<byte>, sizeMax: nat) returns (status: Status, len: nat)
    requires sizeMax >= 0xFFFF_FFFF && out.Length <= sizeMax
    modifies out
    ensures !Valid(c) ==> status == Malformed && out[..] == old(out[..])
    ensures Valid(c) ==>
      && CredentialWritable(c)
      && var root := Cons(TAG_CREDENTIAL, Flatten(CredentialSlots(c)));
      && (status == Status.Ok <==> Encodable(root) && SizeOf(root) <= DER_MAX_SIZE && SizeOf(root) <= out.Length)
      && (status == Status.Ok ==> len <= out.Length && out[..len] == NodeOctets(root))
  {
    len := 0;
    if !Valid(c) { return Malformed, 0; }
    ValidIsWritable(c);
    status, len := Encode(Flatten(CredentialSlots(c)), out, sizeMax);
  }
}
