/** Credentials that pass the model check, are encoded, and are refused by the decoder:
    a file may hold more octets than the decoder lets one file store. */
module DerUnreadable {
  import opened Bytes
  import opened Limits
  import opened DerTlv
  import opened DerInteger
  import opened DerWriter
  import opened DerRecords
  import opened DerSchema
  import opened DerEncoder
  import opened DerDecoder
  import opened DerNormalForm
  import opened DerRoundTrip
  import opened DerReader

  // ---- Bounds on encodings ----------------------------------------------------------------

  /** Nothing, or an element that can be written in at most `size` octets. */
  predicate Within(slot: Option<Node>, size: nat)
  {
    slot.Some? ==> Encodable(slot.value) && SizeOf(slot.value) <= size
  }

  lemma {:induction false} FlattenWithin(slots: Slots, k: nat, small: nat, big: nat)
    requires forall i :: 0 <= i < |slots| ==> Within(slots[i], if i == k then big else small)
    ensures AllEncodable(Flatten(slots)) && SizeOfAll(Flatten(slots)) <= |slots| * small + big
  {
    if slots != [] {
      var rest := slots[1..];
      assert |slots| * small == small + |rest| * small;
      assert Within(slots[0], if 0 == k then big else small);
      if k == 0 {
        FlattenWithin(rest, |slots|, small, 0);
      } else {
        FlattenWithin(rest, k - 1, small, big);
      }
      FlattenStep(slots);
    }
  }

  lemma FlattenStep(slots: Slots)
    requires slots != [] && AllEncodable(Flatten(slots[1..])) && (slots[0].Some? ==> Encodable(slots[0].value))
    ensures AllEncodable(Flatten(slots))
    ensures SizeOfAll(Flatten(slots)) ==
      (if slots[0].Some? then SizeOf(slots[0].value) else 0) + SizeOfAll(Flatten(slots[1..]))
  {
    var rest := Flatten(slots[1..]);
    if slots[0].Some? {
      assert Flatten(slots)[0] == slots[0].value && Flatten(slots)[1..] == rest;
    } else {
      assert Flatten(slots) == rest;
    }
  }

  lemma ConsWithin(tag: byte, kids: seq<Node>, size: nat)
    requires AllEncodable(kids) && SizeOfAll(kids) <= size <= 0xFFFF
    ensures Within(Some(Cons(tag, kids)), size + 4)
  {
  }

  lemma PrimWithin(tag: byte, body: octets)
    requires |body| <= 0xFFFF
    ensures Within(Some(Prim(tag, body)), |body| + 4)
  {
  }

  lemma IntWithin(tag: byte, v: int)
    requires IsInt64(v)
    ensures Within(Int(tag, v), 12)
  {
    IntOctetsCanonical(v);
    PrimWithin(tag, IntOctets(v));
  }

  lemma SingleWithin(tag: byte, kids: seq<Node>, size: nat)
    requires AllEncodable(kids) && SizeOfAll(kids) <= size && size + 4 <= 0xFFFF
    ensures AllEncodable(Listed(tag, [kids])) && SizeOfAll(Listed(tag, [kids])) <= size + 4
  {
    ConsWithin(tag, kids, size);
    var list := Listed(tag, [kids]);
    assert |list| == 1 && list[0] == Cons(tag, kids) && list[1..] == [];
  }

  // ---- A credential with one large file ---------------------------------------------------

  function LargeFile(data: octets): File
  {
    File(PICC_OWNER, 0, 0, 0, 0, None, Data(|data|, data, true))
  }

  /** A cleared credential with an identifier and one file of the PICC. */
  function OneFile(uid: octets, data: octets): Credential
  {
    CLEARED.(card := CLEARED.card.(uid := uid), files := [LargeFile(data)])
  }

  lemma OneFileValid(uid: octets, data: octets)
    requires |uid| == 7 && 0 < |data| <= FILE_POOL_SIZE
    ensures Valid(OneFile(uid, data))
    ensures FilesFit(OneFile(uid, data)) <==> |data| <= MAX_FILE_DATA
  {
    var c := OneFile(uid, data);
    assert c.files[0] == LargeFile(data);
    assert TotalStored(c.files) == |data| by { assert c.files[..0] == []; }
    assert Covers(PossibleAuth(1, 1) + 32, 3);
  }

  lemma DataNodeWithin(data: octets)
    requires 0 < |data| <= FILE_POOL_SIZE
    ensures Within(Some(ContentsNode(LargeFile(data).contents)), |data| + 44)
  {
    hide Encodable, SizeOf, Flatten;
    var slots := DataSlots(|data|, data, true);
    IntWithin(0x80, |data|);
    PrimWithin(0x81, data);
    PrimWithin(0x82, [0xFF]);
    FlattenWithin(slots, 1, 12, |data| + 4);
    ConsWithin(0xA5, Flatten(slots), |data| + 40);
  }

  lemma FileSlotsWithin(data: octets)
    requires 0 < |data| <= FILE_POOL_SIZE
    ensures var slots := FileSlots(LargeFile(data));
      |slots| == 10 && forall i :: 0 <= i < |slots| ==> Within(slots[i], if i == 5 then |data| + 44 else 12)
  {
    hide Encodable, SizeOf, ContentsNode, IntOctets;
    DataNodeWithin(data);
    IntWithin(0x80, 0);
    IntWithin(0x81, 0);
    PrimWithin(0x82, [0]);
    PrimWithin(0x83, Pair(0));
  }

  lemma FileItemWithin(data: octets)
    requires 0 < |data| <= FILE_POOL_SIZE
    ensures var item := Flatten(FileSlots(LargeFile(data))); AllEncodable(item) && SizeOfAll(item) <= |data| + 164
  {
    hide Flatten, FileSlots, Within, AllEncodable, SizeOfAll;
    FileSlotsWithin(data);
    FlattenWithin(FileSlots(LargeFile(data)), 5, 12, |data| + 44);
  }

  lemma OneFileList(f: File)
    requires f.owner == PICC_OWNER && Writable(f)
    ensures AllWritable(FilesOf([f], PICC_OWNER))
    ensures FileList([f], PICC_OWNER) == Listed(TAG_SEQUENCE, [Flatten(FileSlots(f))])
  {
    hide Flatten, FileSlots;
    assert FilesOf([f], PICC_OWNER) == [f] by { assert [f][..0] == []; }
    assert FileItems([f]) == [Flatten(FileSlots(f))];
  }

  lemma FileListWithin(data: octets)
    requires 0 < |data| <= FILE_POOL_SIZE
    ensures AllWritable(FilesOf([LargeFile(data)], PICC_OWNER))
    ensures Within(Some(Cons(0xAA, FileList([LargeFile(data)], PICC_OWNER))), |data| + 172)
  {
    hide Flatten, FileSlots, Within, FileList, FilesOf, AllEncodable, SizeOfAll;
    OneFileList(LargeFile(data));
    FileItemWithin(data);
    SingleWithin(TAG_SEQUENCE, Flatten(FileSlots(LargeFile(data))), |data| + 164);
    ConsWithin(0xAA, FileList([LargeFile(data)], PICC_OWNER), |data| + 168);
  }

  lemma KeyListWithin()
    ensures Within(Some(Cons(0xA9, KeyList(CLEARED.picc.keys))), 72)
  {
    hide Encodable, SizeOf, Flatten;
    var key := Key(Zeros(16), 0);
    var slots := KeySlots(0, key);
    IntWithin(0x80, 0);
    PrimWithin(0x81, key.value);
    PrimWithin(0x82, [0]);
    FlattenWithin(slots, 1, 12, 20);
    SingleWithin(TAG_SEQUENCE, Flatten(slots), 56);
    assert KeyItems([key]) == [Flatten(slots)];
    ConsWithin(0xA9, KeyList([key]), 60);
  }

  lemma PiccNodeWithin(data: octets)
    requires 0 < |data| <= FILE_POOL_SIZE && AllWritable(FilesOf([LargeFile(data)], PICC_OWNER))
    ensures Within(Some(Cons(0xA2, Flatten(PiccSlots(CLEARED.picc, 1, [LargeFile(data)])))), |data| + 1400)
  {
    hide Encodable, SizeOf, Flatten, KeyList, FileList;
    var slots := PiccSlots(CLEARED.picc, 1, [LargeFile(data)]);
    FileListWithin(data);
    KeyListWithin();
    PrimWithin(0x80, [0x0F]);
    PrimWithin(0x81, [0x01]);
    IntWithin(0x82, 3);
    forall i | 0 <= i < |slots|
      ensures Within(slots[i], if i == 10 then |data| + 172 else 72)
    {
      if i < 9 { assert slots[i] == PiccSettings(CLEARED.picc, 1)[i]; }
      else { assert slots[i] == PiccContents(CLEARED.picc, [LargeFile(data)])[i - 9]; }
    }
    FlattenWithin(slots, 10, 72, |data| + 172);
    ConsWithin(0xA2, Flatten(slots), |data| + 1396);
  }

  lemma NothingWithin(size: nat)
    ensures Within(None, size)
  {
  }

  lemma UidWithin(uid: octets)
    requires |uid| == 7
    ensures Within(OctetString(0x82, uid), 12)
  {
    PrimWithin(0x82, uid);
  }

  lemma CardNodeWithin(uid: octets)
    requires |uid| == 7
    ensures Within(Some(Cons(0xA1, Flatten(CardSlots(CLEARED.card.(uid := uid))))), 100)
  {
    hide Within, Flatten, Int, OctetString;
    var slots := CardSlots(CLEARED.card.(uid := uid));
    IntWithin(0x80, 1);
    IntWithin(0x81, 2048);
    IntWithin(0x83, 0);
    UidWithin(uid);
    NothingWithin(12);
    FlattenWithin(slots, 0, 12, 12);
    ConsWithin(0xA1, Flatten(slots), 96);
  }

  lemma OneFileEncodable(uid: octets, data: octets)
    requires |uid| == 7 && 0 < |data| <= FILE_POOL_SIZE
    ensures CredentialWritable(OneFile(uid, data))
    ensures var root := Cons(TAG_CREDENTIAL, Flatten(CredentialSlots(OneFile(uid, data))));
      Encodable(root) && SizeOf(root) <= DER_MAX_SIZE
  {
    hide Encodable, SizeOf, Flatten, CardSlots, PiccSlots;
    var c := OneFile(uid, data);
    OneFileValid(uid, data);
    ValidIsWritable(c);
    var slots := CredentialSlots(c);
    IntWithin(0x80, FORMAT_VERSION);
    CardNodeWithin(uid);
    PiccNodeWithin(data);
    assert AppItems(c.apps, c.card.generation, c.files) == [];
    NoAppsWithin();
    FlattenWithin(slots, 2, 100, |data| + 1400);
    ConsWithin(TAG_CREDENTIAL, Flatten(slots), |data| + 1800);
  }

  lemma NoAppsWithin()
    ensures Within(Some(Cons(0xA3, Listed(TAG_SEQUENCE, []))), 4)
  {
    assert Listed(TAG_SEQUENCE, []) == [];
    ConsWithin(0xA3, [], 0);
  }

  /** A cleared credential with one file is valid and is encoded for any data that fits the
      pool, but is read back only when the file holds at most 2048 octets. */
  lemma OneFileReads(uid: octets, data: octets)
    requires |uid| == 7 && 0 < |data| <= FILE_POOL_SIZE
    ensures Valid(OneFile(uid, data)) && CredentialWritable(OneFile(uid, data))
    ensures var root := Cons(TAG_CREDENTIAL, Flatten(CredentialSlots(OneFile(uid, data))));
      && Encodable(root) && SizeOf(root) <= DER_MAX_SIZE
      && DecodeCredential(NodeOctets(root))
         == if |data| <= MAX_FILE_DATA then Done(Normal(OneFile(uid, data))) else Fail(Capacity)
  {
    hide Valid, Flatten, CredentialSlots, DecodeCredential, FilesFit, Normal, OneFile;
    OneFileValid(uid, data);
    OneFileEncodable(uid, data);
    RoundTrip(OneFile(uid, data));
  }

  /** Saved without a complaint and never loaded: 3000 zero octets in one file. */
  lemma SavedAndNeverLoaded()
    ensures var c := OneFile(Zeros(7), Zeros(3000));
      && Valid(c) && CredentialWritable(c)
      && var root := Cons(TAG_CREDENTIAL, Flatten(CredentialSlots(c)));
      && Encodable(root) && SizeOf(root) <= DER_MAX_SIZE && DecodeCredential(NodeOctets(root)) == Fail(Capacity)
  {
    hide Valid, Flatten, CredentialSlots, DecodeCredential, OneFile;
    OneFileReads(Zeros(7), Zeros(3000));
  }
}
