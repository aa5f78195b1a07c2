/** Decoding what was encoded gives the credential back in normal form. */
module DerRoundTrip {
  import opened Bytes
  import opened Limits
  import opened DerTlv
  import opened DerInteger
  import opened DerWriter
  import opened DerFields
  import opened DerRecords
  import opened DerSchema
  import opened DerEncoder
  import opened DerDecoder
  import opened DerNormalForm

  /** Declared tags are numbered in order, whatever their class. */
  lemma NumberedOrder(order: octets)
    requires |order| <= 31 && forall i :: 0 <= i < |order| ==> order[i] % 32 == i
    ensures OrderOk(order)
  {
    forall i, j | 0 <= i < j < |order|
      ensures order[i] != order[j]
    {
      assert order[i] % 32 == i && order[j] % 32 == j;
    }
  }

  lemma OrdersOk()
    ensures OrderOk(KEY_ORDER) && OrderOk(SET_ORDER) && OrderOk(SETS_ORDER) && OrderOk(DATA_ORDER)
    ensures OrderOk(VALUE_ORDER) && OrderOk(RECORD_ORDER)
    ensures OrderOk(CARD_ORDER) && OrderOk(CREDENTIAL_ORDER)
  {
    hide OrderOk;
    NumberedOrder(KEY_ORDER);
    NumberedOrder(SET_ORDER);
    NumberedOrder(SETS_ORDER);
    NumberedOrder(DATA_ORDER);
    NumberedOrder(VALUE_ORDER);
    NumberedOrder(RECORD_ORDER);
    NumberedOrder(CARD_ORDER);
    NumberedOrder(CREDENTIAL_ORDER);
  }

  lemma FileOrderOk()
    ensures OrderOk(FILE_ORDER)
  {
    hide OrderOk;
    NumberedOrder(FILE_ORDER);
  }

  lemma AppOrderOk()
    ensures OrderOk(APP_ORDER)
  {
    hide OrderOk;
    NumberedOrder(APP_ORDER);
  }

  lemma PiccOrderOk()
    ensures OrderOk(PICC_ORDER)
  {
    hide OrderOk;
    NumberedOrder(PICC_ORDER);
  }

  lemma UnsignedReads(v: nat, max: nat)
    requires v <= max && v < TWO_63
    ensures Unsigned(Some(IntOctets(v)), max) == Done(v)
  {
    IntegerCanonical(IntOctets(v), v);
  }

  lemma KeyReads(slot: nat, k: Key)
    requires slot < MAX_KEYS && AllEncodable(Flatten(KeySlots(slot, k)))
    ensures DecodeKey(AllOctets(Flatten(KeySlots(slot, k))), slot, |k.value|) == Done(k)
  {
    hide Flatten, AllOctets, AllEncodable, ReadFields, IntOctets, IntValue;
    OrdersOk();
    var slots := KeySlots(slot, k);
    RecordReads(KEY_ORDER, slots);
    UnsignedReads(slot, MAX_KEYS - 1);
  }

  // ---- Keys -------------------------------------------------------------------------------

  lemma {:induction false} KeyItemsRead(keys: seq<Key>, n: nat, length: nat)
    requires n <= |keys| <= MAX_KEYS && KeysOf(keys, length)
    requires forall i :: 0 <= i < |keys| ==> AllEncodable(KeyItems(keys)[i])
    ensures DecodeKeyItems(ItemBodies(KeyItems(keys)), n, length) == Done(keys[n..])
    decreases |keys| - n
  {
    hide Flatten, AllOctets, AllEncodable, DecodeKey, KeySlots;
    if n < |keys| {
      var bodies := ItemBodies(KeyItems(keys));
      assert KeyItems(keys)[n] == Flatten(KeySlots(n, keys[n]));
      KeyReads(n, keys[n]);
      KeyItemsRead(keys, n + 1, length);
      assert [keys[n]] + keys[n + 1..] == keys[n..];
    }
  }

  lemma KeysRead(keys: seq<Key>, length: nat, used: nat)
    requires |keys| <= MAX_KEYS && KeysOf(keys, length) && AllEncodable(KeyList(keys))
    requires used + |keys| * Stride(length) <= KEY_POOL_SIZE
    ensures DecodeKeys(AllOctets(KeyList(keys)), length, used) == Done(keys)
  {
    hide AllOctets, AllEncodable, DecodeKeyItems;
    ListReads(TAG_SEQUENCE, KeyItems(keys));
    KeyItemsRead(keys, 0, length);
    assert keys[0..] == keys;
  }

  /** The first key of a set is read and then the others. */
  lemma SetKeysStep(body: octets, rest: octets, slot: nat, count: nat, length: nat)
    requires |body| <= 0xFFFF && slot < count
    requires DecodeKey(body, slot, length).Done? && DecodeSetKeys(rest, slot + 1, count, length).Done?
    ensures DecodeSetKeys(Tlv(TAG_SEQUENCE, body) + rest, slot, count, length)
         == Done([DecodeKey(body, slot, length).value] + DecodeSetKeys(rest, slot + 1, count, length).value)
  {
    hide DecodeKey, ParseTlv, Tlv;
    WrittenIsRead(TAG_SEQUENCE, body, rest);
    TlvNotEmpty(TAG_SEQUENCE, body);
  }

  lemma NoSetKeysLeft(slot: nat, count: nat, length: nat)
    ensures DecodeSetKeys([], slot, count, length) == Done([])
  {
  }

  lemma {:induction false} SetKeysRead(keys: seq<Key>, slot: nat, length: nat)
    requires slot <= |keys| <= MAX_KEYS && KeysOf(keys, length)
    requires forall i :: 0 <= i < |keys| ==> AllEncodable(KeyItems(keys)[i]) && |AllOctets(KeyItems(keys)[i])| <= 0xFFFF
    ensures DecodeSetKeys(ListOctets(TAG_SEQUENCE, ItemBodies(KeyItems(keys))[slot..]), slot, |keys|, length) == Done(keys[slot..])
    decreases |keys| - slot
  {
    hide Flatten, AllOctets, AllEncodable, DecodeKey, KeySlots, Tlv, ListOctets, DecodeSetKeys;
    var bodies := ItemBodies(KeyItems(keys));
    if slot < |keys| {
      assert KeyItems(keys)[slot] == Flatten(KeySlots(slot, keys[slot]));
      KeyReads(slot, keys[slot]);
      SetKeysRead(keys, slot + 1, length);
      ListFirst(TAG_SEQUENCE, bodies, slot);
      SetKeysStep(bodies[slot], ListOctets(TAG_SEQUENCE, bodies[slot + 1..]), slot, |keys|, length);
      assert [keys[slot]] + keys[slot + 1..] == keys[slot..];
    } else {
      NoneListed(TAG_SEQUENCE);
      NoSetKeysLeft(slot, |keys|, length);
      assert bodies[slot..] == [] && keys[slot..] == [];
    }
  }

  lemma SetReads(number: nat, s: KeySet, count: nat, maxSize: nat)
    requires number < MAX_KEY_SETS && SetOk(s, count, maxSize) && count <= MAX_KEYS
    requires AllEncodable(Flatten(SetSlots(number, s)))
    ensures DecodeSet(AllOctets(Flatten(SetSlots(number, s))), number, count, maxSize) == Done(s)
  {
    hide Flatten, AllOctets, AllEncodable, ReadFields, IntOctets, IntValue, DecodeSetKeys;
    OrdersOk();
    var slots := SetSlots(number, s);
    RecordReads(SET_ORDER, slots);
    UnsignedReads(number, MAX_KEY_SETS - 1);
    UnsignedReads(s.kind, 0xFF);
    assert Encodable(slots[4].value);
    SetKeyListReads(s, count);
  }

  lemma SetKeyListReads(s: KeySet, count: nat)
    requires Encodable(Cons(0xA4, KeyList(s.keys))) && |s.keys| == count <= MAX_KEYS && KeysOf(s.keys, SetKeyLength(s.kind))
    ensures Body(Cons(0xA4, KeyList(s.keys))) == AllOctets(KeyList(s.keys))
    ensures DecodeSetKeys(AllOctets(KeyList(s.keys)), 0, count, SetKeyLength(s.kind)) == Done(s.keys)
  {
    hide AllOctets, DecodeSetKeys;
    ListedOctets(TAG_SEQUENCE, KeyItems(s.keys));
    SetKeysRead(s.keys, 0, SetKeyLength(s.kind));
    assert ItemBodies(KeyItems(s.keys))[0..] == ItemBodies(KeyItems(s.keys)) && s.keys[0..] == s.keys;
  }

  lemma {:induction false} SetItemsRead(sets: seq<KeySet>, n: nat, count: nat, maxSize: nat)
    requires n <= |sets| <= MAX_KEY_SETS && count <= MAX_KEYS
    requires forall i :: 0 <= i < |sets| ==> SetOk(sets[i], count, maxSize)
    requires forall i :: 0 <= i < |sets| ==> AllEncodable(SetItems(sets)[i])
    ensures DecodeSetItems(ItemBodies(SetItems(sets)), n, count, maxSize) == Done(sets[n..])
    decreases |sets| - n
  {
    hide Flatten, AllOctets, AllEncodable, DecodeSet, SetSlots, SetOk;
    if n < |sets| {
      assert SetItems(sets)[n] == Flatten(SetSlots(n, sets[n]));
      SetReads(n, sets[n], count, maxSize);
      SetItemsRead(sets, n + 1, count, maxSize);
      assert [sets[n]] + sets[n + 1..] == sets[n..];
    }
  }

  lemma SetsRead(s: KeyStore, ks2: byte, generation: nat, used: nat)
    requires s.Sets? && StoreOk(s, ks2, generation) && used + KeyUse(ks2, s) <= KEY_POOL_SIZE
    requires AllEncodable(Flatten(SetsSlots(NumKeys(s), s.maxSize, s.settings, s.sets)))
    ensures DecodeKeySets(AllOctets(Flatten(SetsSlots(NumKeys(s), s.maxSize, s.settings, s.sets))), used) == Done(s)
  {
    hide Flatten, AllOctets, AllEncodable, ReadFields, IntOctets, IntValue, DecodeSetItems;
    OrdersOk();
    var slots := SetsSlots(NumKeys(s), s.maxSize, s.settings, s.sets);
    RecordReads(SETS_ORDER, slots);
    UnsignedReads(NumKeys(s), MAX_KEYS);
    UnsignedReads(s.maxSize, 24);
    assert Encodable(slots[3].value);
    ConsParts(0xA3, Listed(TAG_SEQUENCE, SetItems(s.sets)));
    ListReads(TAG_SEQUENCE, SetItems(s.sets));
    SetItemsRead(s.sets, 0, NumKeys(s), s.maxSize);
    assert s.sets[0..] == s.sets;
  }

  // ---- Files ------------------------------------------------------------------------------

  /** The file can be stored behind the ones already decoded. */
  predicate Storable(c: Contents, files: seq<File>)
  {
    StoredSize(c) > 0 ==> FileFits(files, StoredSize(c))
  }

  lemma DataReads(c: Contents, kind: byte, files: seq<File>)
    requires c.Data? && ContentsOk(kind, c)
    requires AllEncodable(Flatten(DataSlots(c.size, c.known, c.complete)))
    ensures DecodeData(AllOctets(Flatten(DataSlots(c.size, c.known, c.complete))), files)
            == if Storable(c, files) then Done(c) else Fail(Capacity)
  {
    hide Flatten, AllOctets, AllEncodable, ReadFields, IntOctets, IntValue, FileFits;
    OrdersOk();
    RecordReads(DATA_ORDER, DataSlots(c.size, c.known, c.complete));
    UnsignedReads(c.size, U24_MAX);
  }

  lemma IntegerReads(v: int)
    requires IsInt64(v)
    ensures Integer(Some(IntOctets(v))) == Done(v)
  {
    IntegerCanonical(IntOctets(v), v);
  }

  lemma ValueReads(c: Contents, kind: byte)
    requires c.Value? && ContentsOk(kind, c)
    requires AllEncodable(Flatten(ValueSlots(c.lower, c.upper, c.current, c.limited, c.limit)))
    ensures DecodeValue(AllOctets(Flatten(ValueSlots(c.lower, c.upper, c.current, c.limited, c.limit)))) == Done(c)
  {
    hide Flatten, AllOctets, AllEncodable, ReadFields, IntOctets, IntValue, Integer;
    OrdersOk();
    RecordReads(VALUE_ORDER, ValueSlots(c.lower, c.upper, c.current, c.limited, c.limit));
    IntegerReads(c.lower);
    IntegerReads(c.upper);
    IntegerReads(c.current);
    IntegerReads(c.limit);
  }

  lemma {:induction false} RecordListOctets(stored: seq<octets>)
    requires AllEncodable(RecordList(stored))
    ensures forall i :: 0 <= i < |stored| ==> |stored[i]| <= 0xFFFF
    ensures AllOctets(RecordList(stored)) == ListOctets(TAG_OCTETS, stored)
    decreases |stored|
  {
    if stored != [] {
      var ns := RecordList(stored);
      assert ns[1..] == RecordList(stored[1..]) && Encodable(ns[0]);
      RecordListOctets(stored[1..]);
      forall i | 0 <= i < |stored|
        ensures |stored[i]| <= 0xFFFF
      {
        if i > 0 { assert stored[1..][i - 1] == stored[i]; }
      }
    }
  }

  lemma RecordListReads(stored: seq<octets>)
    requires Encodable(Cons(0xA4, RecordList(stored)))
    ensures ReadList(TAG_OCTETS, Body(Cons(0xA4, RecordList(stored)))) == Some(stored)
  {
    RecordListOctets(stored);
    ListRoundTrip(TAG_OCTETS, stored);
  }

  lemma RecordsRead(c: Contents, kind: byte, files: seq<File>)
    requires c.Records? && ContentsOk(kind, c)
    requires AllEncodable(Flatten(RecordSlots(c.size, c.max, c.count, c.complete, c.stored)))
    ensures DecodeRecords(AllOctets(Flatten(RecordSlots(c.size, c.max, c.count, c.complete, c.stored))), kind, files)
            == if Storable(Written(c), files) then Done(Written(c)) else Fail(Capacity)
  {
    hide Flatten, AllOctets, AllEncodable, ReadFields, IntOctets, IntValue, FileFits, ReadList, Encodable;
    OrdersOk();
    var slots := RecordSlots(c.size, c.max, c.count, c.complete, c.stored);
    RecordReads(RECORD_ORDER, slots);
    UnsignedReads(c.size, U24_MAX);
    UnsignedReads(c.max, U24_MAX);
    UnsignedReads(c.count, U24_MAX);
    var w := Written(c);
    assert Encodable(slots[4].value) && slots[4].value == Cons(0xA4, RecordList(w.stored));
    RecordListReads(w.stored);
    assert w.stored != [] ==> |w.stored| * c.size > 0;
  }

  /** The slots of a file that hold its contents. */
  lemma ContentsSlots(f: File)
    requires Writable(f)
    ensures var slots, node := FileSlots(f), ContentsNode(f.contents);
      && |slots| == 10 && slots[8] == None
      && slots[5] == (if f.contents.Data? then Some(node) else None)
      && slots[6] == (if f.contents.Value? then Some(node) else None)
      && slots[7] == (if f.contents.Records? then Some(node) else None)
  {
    hide ContentsNode;
  }

  /** With one of the contents there, the type decides how it is read. */
  lemma ContentsChosen(r: Record, kind: byte, files: seq<File>)
    requires |r| == 10 && r[8] == None && Count(r[5]) + Count(r[6]) + Count(r[7]) == 1
    ensures kind <= 1 && r[5].Some? ==> DecodeContents(r, kind, files) == DecodeData(r[5].value, files)
    ensures kind == 2 && r[6].Some? ==> DecodeContents(r, kind, files) == DecodeValue(r[6].value)
    ensures 3 <= kind <= 4 && r[7].Some? ==> DecodeContents(r, kind, files) == DecodeRecords(r[7].value, kind, files)
  {
    hide DecodeData, DecodeValue, DecodeRecords;
  }

  lemma ContentsRead(f: File, files: seq<File>)
    requires Writable(f) && ContentsOk(f.kind, f.contents)
    requires SlotsEncodable(FileSlots(f))
    ensures DecodeContents(Bodies(FileSlots(f)), f.kind, files)
            == if Storable(Written(f.contents), files) then Done(Written(f.contents)) else Fail(Capacity)
  {
    hide Flatten, AllOctets, AllEncodable, DecodeData, DecodeValue, DecodeRecords, Encodable,
         DataSlots, ValueSlots, RecordSlots, FileSlots, DecodeContents;
    var slots := FileSlots(f);
    var c := f.contents;
    ContentsSlots(f);
    ContentsChosen(Bodies(slots), f.kind, files);
    if c.Data? {
      assert Encodable(slots[5].value);
      ConsParts(0xA5, Flatten(DataSlots(c.size, c.known, c.complete)));
      DataReads(c, f.kind, files);
    } else if c.Value? {
      assert Encodable(slots[6].value);
      ConsParts(0xA6, Flatten(ValueSlots(c.lower, c.upper, c.current, c.limited, c.limit)));
      ValueReads(c, f.kind);
    } else {
      assert Encodable(slots[7].value);
      ConsParts(0xA7, Flatten(RecordSlots(c.size, c.max, c.count, c.complete, c.stored)));
      RecordsRead(c, f.kind, files);
    }
  }

  lemma PairReads(v: nat)
    requires v < 65536
    ensures Pair(v)[0] as int * 256 + Pair(v)[1] == v
  {
  }

  lemma FileIdReads(fid: Option<nat>)
    requires FidOk(fid)
    ensures FileId(if fid.Some? then Some(Pair(fid.value)) else None) == Done(fid)
  {
    if fid.Some? { PairReads(fid.value); }
  }

  lemma FileRecord(f: File) returns (r: Record)
    requires Writable(f) && AllEncodable(Flatten(FileSlots(f)))
    ensures SlotsEncodable(FileSlots(f)) && r == Bodies(FileSlots(f)) && |r| == 10
    ensures ReadFields(FILE_ORDER, 0, AllOctets(Flatten(FileSlots(f)))) == Some(r)
    ensures r[0] == Some(IntOctets(f.number)) && r[1] == Some(IntOctets(f.kind)) && r[2] == Some([f.comm])
    ensures r[3] == Some(Pair(f.rights)) && r[4] == (if f.isoFid.Some? then Some(Pair(f.isoFid.value)) else None)
    ensures r[9] == None
  {
    hide Flatten, AllOctets, AllEncodable, ReadFields, IntOctets, Encodable, Pair;
    FileOrderOk();
    RecordReads(FILE_ORDER, FileSlots(f));
    r := Bodies(FileSlots(f));
  }

  lemma FileReads(f: File, files: seq<File>)
    requires Writable(f) && ContentsOk(f.kind, f.contents)
    requires f.number as int <= MAX_FILE_NUMBER && f.kind <= 4 && |files| < MAX_FILES
    requires !Taken(files, f.owner, f.number) && AllEncodable(Flatten(FileSlots(f)))
    ensures DecodeFile(AllOctets(Flatten(FileSlots(f))), f.owner, files)
            == if Storable(Written(f.contents), files) then Done(NormalFile(f)) else Fail(Capacity)
  {
    hide Flatten, AllOctets, AllEncodable, ReadFields, IntOctets, Unsigned, DecodeContents, Taken, FileSlots, Bodies,
         SlotsEncodable, Storable, FileId;
    var r := FileRecord(f);
    UnsignedReads(f.number, MAX_FILE_NUMBER);
    UnsignedReads(f.kind, 0xFF);
    ContentsRead(f, files);
    PairReads(f.rights);
    FileIdReads(f.isoFid);
  }

  /** Files that can be decoded one after the other, in this order, unless one of them is
      larger than the decoder will store. */
  predicate Admissible(target: seq<File>)
  {
    Distinct(target) && |target| <= MAX_FILES && TotalStored(target) <= FILE_POOL_SIZE
  }

  predicate Small(f: File)
  {
    StoredSize(f.contents) <= MAX_FILE_DATA
  }

  predicate AllSmall(target: seq<File>, from: nat, to: nat)
    requires to <= |target|
  {
    forall i :: from <= i < to ==> Small(target[i])
  }

  lemma {:induction false} StoredPrefix(files: seq<File>, k: nat)
    requires k <= |files|
    ensures TotalStored(files[..k]) <= TotalStored(files)
    ensures k < |files| ==> TotalStored(files[..k + 1]) == TotalStored(files[..k]) + StoredSize(files[k].contents)
    decreases |files| - k
  {
    if k < |files| {
      assert files[..k + 1][..k] == files[..k];
      StoredPrefix(files, k + 1);
    } else {
      assert files[..k] == files;
    }
  }

  lemma NextFits(target: seq<File>, k: nat)
    requires Admissible(target) && k < |target|
    ensures !Taken(target[..k], target[k].owner, target[k].number)
    ensures Storable(target[k].contents, target[..k]) <==> Small(target[k])
  {
    StoredPrefix(target, k);
    StoredPrefix(target, k + 1);
  }

  /** What the encoder and the decoder ask of a file, apart from its neighbours. */
  predicate Shaped(f: File)
  {
    Writable(f) && ContentsOk(f.kind, f.contents) && f.number as int <= MAX_FILE_NUMBER && f.kind <= 4
  }

  predicate ItemsEncodable(items: seq<seq<Node>>)
  {
    forall i :: 0 <= i < |items| ==> AllEncodable(items[i]) && |AllOctets(items[i])| <= 0xFFFF
  }

  /** `own` are the files of an owner, in normal form from `at` on in `target`. */
  predicate GroupOk(own: seq<File>, owner: nat, target: seq<File>, at: nat)
  {
    && at + |own| <= |target| && Admissible(target) && AllWritable(own) && ItemsEncodable(FileItems(own))
    && forall i :: 0 <= i < |own| ==> Shaped(own[i]) && own[i].owner == owner && target[at + i] == NormalFile(own[i])
  }

  function GroupBodies(own: seq<File>): (bodies: seq<octets>)
    requires AllWritable(own) && ItemsEncodable(FileItems(own))
    ensures |bodies| == |own| && forall i :: 0 <= i < |bodies| ==> |bodies[i]| <= 0xFFFF
  {
    ItemBodies(FileItems(own))
  }

  lemma {:induction false} GroupReads(own: seq<File>, n: nat, owner: nat, target: seq<File>, at: nat)
    requires GroupOk(own, owner, target, at) && n <= |own|
    ensures DecodeFiles(ListOctets(TAG_SEQUENCE, GroupBodies(own)[n..]), owner, target[..at + n])
            == if AllSmall(target, at + n, at + |own|) then Done(target[..at + |own|]) else Fail(Capacity)
    decreases |own| - n
  {
    hide GroupOk, GroupBodies, DecodeFile, DecodeFiles, Tlv, ListOctets, Small, AllSmall, AllWritable, ItemsEncodable;
    GroupShape(own, owner, target, at);
    var bodies := GroupBodies(own);
    if n < |own| {
      var k := at + n;
      NextFileReads(own, n, owner, target, at);
      GroupReads(own, n + 1, owner, target, at);
      assert target[..k] + [target[k]] == target[..k + 1];
      ListFirst(TAG_SEQUENCE, bodies, n);
      FilesStep(bodies[n], ListOctets(TAG_SEQUENCE, bodies[n + 1..]), owner, target[..k]);
      FirstSmall(target, k, at + |own|);
    } else {
      NoneListed(TAG_SEQUENCE);
      assert bodies[n..] == [];
      NoFilesLeft(owner, target[..at + n]);
      NoneLarge(target, at + n);
    }
  }

  lemma GroupShape(own: seq<File>, owner: nat, target: seq<File>, at: nat)
    requires GroupOk(own, owner, target, at)
    ensures at + |own| <= |target| && AllWritable(own) && ItemsEncodable(FileItems(own))
  {
  }

  lemma FirstSmall(target: seq<File>, k: nat, end: nat)
    requires k < end <= |target|
    ensures AllSmall(target, k, end) <==> Small(target[k]) && AllSmall(target, k + 1, end)
  {
    hide Small;
  }

  lemma NoneLarge(target: seq<File>, k: nat)
    requires k <= |target|
    ensures AllSmall(target, k, k)
  {
  }

  lemma NoneListed(tag: byte)
    ensures ListOctets(tag, []) == []
  {
  }

  lemma ListFirst(tag: byte, bodies: seq<octets>, n: nat)
    requires n < |bodies| && forall i :: 0 <= i < |bodies| ==> |bodies[i]| <= 0xFFFF
    ensures ListOctets(tag, bodies[n..]) == Tlv(tag, bodies[n]) + ListOctets(tag, bodies[n + 1..])
  {
    hide Tlv;
    assert bodies[n..][0] == bodies[n] && bodies[n..][1..] == bodies[n + 1..];
  }

  /** The next file of a group is read, or does not fit. */
  lemma NextFileReads(own: seq<File>, n: nat, owner: nat, target: seq<File>, at: nat)
    requires GroupOk(own, owner, target, at) && n < |own|
    ensures DecodeFile(GroupBodies(own)[n], owner, target[..at + n])
            == if Small(target[at + n]) then Done(target[at + n]) else Fail(Capacity)
  {
    hide Flatten, AllOctets, AllEncodable, DecodeFile, FileSlots, Storable, Taken, TotalStored, ContentsOk, Small;
    var f, k := own[n], at + n;
    assert FileItems(own)[n] == Flatten(FileSlots(f));
    NextFits(target, k);
    FileReads(f, target[..k]);
  }

  lemma FilesStep(body: octets, rest: octets, owner: nat, files: seq<File>)
    requires |body| <= 0xFFFF
    ensures DecodeFiles(Tlv(TAG_SEQUENCE, body) + rest, owner, files)
            == var f := DecodeFile(body, owner, files);
               if f.Done? then DecodeFiles(rest, owner, files + [f.value]) else Fail(f.status)
  {
    hide DecodeFile, ParseTlv, Tlv;
    WrittenIsRead(TAG_SEQUENCE, body, rest);
    TlvNotEmpty(TAG_SEQUENCE, body);
  }

  /** The files of one owner are read behind those already there. */
  lemma FileListReads(tag: byte, files: seq<File>, owner: nat, target: seq<File>, at: nat)
    requires var own := FilesOf(files, owner);
      && at + |own| <= |target| && Admissible(target) && AllWritable(own)
      && forall i :: 0 <= i < |own| ==> Shaped(own[i]) && target[at + i] == NormalFile(own[i])
    requires Encodable(Cons(tag, FileList(files, owner)))
    ensures var end := at + |FilesOf(files, owner)|;
      DecodeFiles(Body(Cons(tag, FileList(files, owner))), owner, target[..at])
      == if AllSmall(target, at, end) then Done(target[..end]) else Fail(Capacity)
  {
    hide Flatten, AllOctets, DecodeFiles, FileSlots, Shaped, NormalFile, GroupOk, Admissible, AllSmall, FilesOf, AllEncodable;
    var own := FilesOf(files, owner);
    ListIsGroup(tag, files, owner, target, at);
    GroupShape(own, owner, target, at);
    ListedOctets(TAG_SEQUENCE, FileItems(own));
    GroupReads(own, 0, owner, target, at);
    assert GroupBodies(own)[0..] == ItemBodies(FileItems(own));
    assert target[..at + 0] == target[..at];
  }

  lemma ListIsGroup(tag: byte, files: seq<File>, owner: nat, target: seq<File>, at: nat)
    requires var own := FilesOf(files, owner);
      && at + |own| <= |target| && Admissible(target) && AllWritable(own)
      && forall i :: 0 <= i < |own| ==> Shaped(own[i]) && target[at + i] == NormalFile(own[i])
    requires Encodable(Cons(tag, FileList(files, owner)))
    ensures GroupOk(FilesOf(files, owner), owner, target, at)
  {
    hide Flatten, AllOctets, FileSlots, Shaped, NormalFile, Admissible;
    var own := FilesOf(files, owner);
    FilesOfFrom(files, owner);
    ListedOctets(TAG_SEQUENCE, FileItems(own));
  }

  // ---- Applications -----------------------------------------------------------------------

  lemma StoreReads(a: App, generation: nat, files: seq<File>, owner: nat, used: nat)
    requires FidOk(a.isoFid) && AllWritable(FilesOf(files, owner)) && StoreOk(a.store, a.ks2, generation)
    requires used + KeyUse(a.ks2, a.store) <= KEY_POOL_SIZE
    requires SlotsEncodable(AppSlots(a, owner, generation, files))
    ensures var r := Bodies(AppSlots(a, owner, generation, files));
            DecodeStore(r[6], r[8], a.ks2, used) == Done(a.store)
  {
    hide Flatten, AllOctets, AllEncodable, DecodeKeys, DecodeKeySets, Encodable, SetsSlots, KeyList, FileList, Int, Octet,
         OctetString, OptPair, NonEmpty, OptOctet;
    var slots := AppSlots(a, owner, generation, files);
    if a.store.Plain? {
      assert Encodable(slots[6].value);
      ConsParts(0xA6, KeyList(a.store.keys));
      KeysRead(a.store.keys, KeyLength(a.ks2), used);
    } else {
      assert Encodable(slots[8].value);
      ConsParts(0xA8, Flatten(SetsSlots(NumKeys(a.store), a.store.maxSize, a.store.settings, a.store.sets)));
      SetsRead(a.store, a.ks2, generation, used);
    }
  }

  lemma AppRecord(a: App, owner: nat, generation: nat, files: seq<File>) returns (r: Record)
    requires FidOk(a.isoFid) && AllWritable(FilesOf(files, owner))
    requires AllEncodable(Flatten(AppSlots(a, owner, generation, files)))
    ensures SlotsEncodable(AppSlots(a, owner, generation, files)) && r == Bodies(AppSlots(a, owner, generation, files))
    ensures |r| == 13 && ReadFields(APP_ORDER, 0, AllOctets(Flatten(AppSlots(a, owner, generation, files)))) == Some(r)
    ensures r[0] == Some(a.aid) && r[1] == (if a.isoFid.Some? then Some(Pair(a.isoFid.value)) else None)
    ensures r[2] == (if a.dfName != [] then Some(a.dfName) else None) && r[3] == Some([a.ks1]) && r[4] == Some([a.ks2])
    ensures r[5] == Some(IntOctets(AuthMask(a.auth, a.ks2, generation)))
    ensures Encodable(Cons(0xA7, FileList(files, owner))) && r[7] == Some(Body(Cons(0xA7, FileList(files, owner))))
    ensures r[9] == None && r[10] == None
    ensures r[11] == (if a.smDisable.Some? then Some([a.smDisable.value]) else None)
    ensures r[12] == (if a.preferred.Some? then Some(IntOctets(a.preferred.value)) else None)
  {
    hide Flatten, AllOctets, AllEncodable, ReadFields, IntOctets, Encodable, Pair, KeyList, FileList, SetsSlots, AuthMask;
    AppOrderOk();
    var slots := AppSlots(a, owner, generation, files);
    AppSlotsAligned(a, owner, generation, files);
    hide OrderOk, Aligned;
    RecordReads(APP_ORDER, slots);
    assert slots[7] == Some(Cons(0xA7, FileList(files, owner)));
    r := Bodies(slots);
  }

  lemma AppSlotsAligned(a: App, owner: nat, generation: nat, files: seq<File>)
    requires FidOk(a.isoFid) && AllWritable(FilesOf(files, owner))
    ensures Aligned(APP_ORDER, 0, AppSlots(a, owner, generation, files))
  {
    hide Flatten, IntOctets, Pair, KeyList, FileList, SetsSlots, AuthMask;
  }

  lemma AppReads(a: App, owner: nat, generation: nat, files: seq<File>, apps: seq<App>, used: nat)
    requires AppOk(a, generation) && AllWritable(FilesOf(files, owner))
    requires used + KeyUse(a.ks2, a.store) <= KEY_POOL_SIZE
    requires forall i :: 0 <= i < |apps| ==> apps[i].aid != a.aid
    requires AllEncodable(Flatten(AppSlots(a, owner, generation, files)))
    ensures SlotsEncodable(AppSlots(a, owner, generation, files))
    ensures DecodeApp(Bodies(AppSlots(a, owner, generation, files)), apps, used) == Done(NormalApp(a, generation))
  {
    hide Flatten, AllOctets, AllEncodable, ReadFields, IntOctets, Unsigned, Encodable, AppSlots, Bodies,
         SlotsEncodable, FileId, DecodeStore, KeyUse, StoreOk, Bit, Covers, FileList, Body, AuthMask, Pair;
    var r := AppRecord(a, owner, generation, files);
    FileIdReads(a.isoFid);
    UnsignedReads(AuthMask(a.auth, a.ks2, generation), AUTH_ALL);
    if a.preferred.Some? { UnsignedReads(a.preferred.value, AUTH_ALL); }
    StoreReads(a, generation, files, owner, used);
  }

  lemma {:induction false} FilesOfNormal(files: seq<File>, owner: nat)
    ensures FilesOf(NormalFiles(files), owner) == NormalFiles(FilesOf(files, owner))
  {
    if files != [] {
      var n := |files| - 1;
      FilesOfNormal(files[..n], owner);
      assert NormalFiles(files)[..n] == NormalFiles(files[..n]);
    }
  }

  /** Where the files of one application lie among the grouped ones. */
  lemma {:induction false} GroupPosition(files: seq<File>, n: nat, i: nat)
    requires i < n
    ensures |Grouped(files, i)| + |FilesOf(files, i)| == |Grouped(files, i + 1)| <= |Grouped(files, n)|
    ensures forall k :: 0 <= k < |FilesOf(files, i)| ==>
      Grouped(files, n)[|Grouped(files, i)| + k] == FilesOf(files, i)[k]
    decreases n
  {
    hide FilesOf;
    if i < n - 1 {
      GroupPosition(files, n - 1, i);
      assert Grouped(files, n) == Grouped(files, n - 1) + FilesOf(files, n - 1);
    } else {
      assert Grouped(files, n) == Grouped(files, i) + FilesOf(files, i);
    }
  }

  /** The original files of one owner, against their place in the grouped target. */
  lemma OwnFiles(c: Credential, i: nat)
    requires Valid(c) && i < |c.apps|
    ensures var nf := NormalFiles(c.files);
      var own, at, target := FilesOf(c.files, i), |Grouped(nf, i)|, Regrouped(nf, |c.apps|);
      && at + |own| == |Grouped(nf, i + 1)| <= |target|
      && forall k :: 0 <= k < |own| ==> Shaped(own[k]) && target[at + k] == NormalFile(own[k])
  {
    hide Valid, Shaped, NormalFile, Grouped, FilesOf;
    var nf := NormalFiles(c.files);
    GroupPosition(nf, |c.apps|, i);
    FilesOfNormal(c.files, i);
    FilesOfFrom(c.files, i);
    ShapedFiles(c);
    var own, at, target := FilesOf(c.files, i), |Grouped(nf, i)|, Regrouped(nf, |c.apps|);
    forall k | 0 <= k < |own|
      ensures Shaped(own[k]) && target[at + k] == NormalFile(own[k])
    {
      assert own[k] in c.files;
      assert target[at + k] == Grouped(nf, |c.apps|)[at + k] == FilesOf(nf, i)[k];
    }
  }

  lemma ShapedFiles(c: Credential)
    requires Valid(c)
    ensures forall f :: f in c.files ==> Shaped(f)
  {
    hide ContentsOk, NibbleOk;
    forall f | f in c.files
      ensures Shaped(f)
    {
      assert FileOk(f, c.picc, c.apps);
    }
  }

  lemma {:induction false} KeyUsePrefix(apps: seq<App>, k: nat)
    requires k <= |apps|
    ensures AppsKeyUse(apps[..k]) <= AppsKeyUse(apps)
    ensures k < |apps| ==> AppsKeyUse(apps[..k + 1]) == AppsKeyUse(apps[..k]) + KeyUse(apps[k].ks2, apps[k].store)
    decreases |apps| - k
  {
    hide KeyUse;
    if k < |apps| {
      assert apps[..k + 1][..k] == apps[..k];
      KeyUsePrefix(apps, k + 1);
    } else {
      assert apps[..k] == apps;
    }
  }

  lemma AppsStep(body: octets, rest: octets, r: Record, picc: Picc, apps: seq<App>, files: seq<File>, app: App)
    requires |body| <= 0xFFFF && |apps| < MAX_APPS && ReadFields(APP_ORDER, 0, body) == Some(r) && |r| == 13
    requires DecodeApp(r, apps, TotalKeyUse(picc, apps)) == Done(app)
    requires r[7].Some?
    ensures DecodeApps(Tlv(TAG_SEQUENCE, body) + rest, picc, apps, files)
            == var more := DecodeFiles(r[7].value, |apps|, files);
               if more.Done? then DecodeApps(rest, picc, apps + [app], more.value) else Fail(more.status)
  {
    hide DecodeApp, DecodeFiles, ParseTlv, Tlv, ReadFields, TotalKeyUse;
    WrittenIsRead(TAG_SEQUENCE, body, rest);
    TlvNotEmpty(TAG_SEQUENCE, body);
  }

  lemma NormalAppsPush(apps: seq<App>, generation: nat, n: nat)
    requires n < |apps|
    ensures var s := NormalApps(apps, generation); s[..n] + [NormalApp(apps[n], generation)] == s[..n + 1]
  {
  }

  lemma OwnFilesRead(c: Credential, n: nat)
    requires Valid(c) && n < |c.apps| && AllWritable(FilesOf(c.files, n))
    requires Admissible(Regrouped(NormalFiles(c.files), |c.apps|))
    requires Encodable(Cons(0xA7, FileList(c.files, n)))
    ensures var nf := NormalFiles(c.files);
      var target := Regrouped(nf, |c.apps|);
      && |Grouped(nf, n)| <= |Grouped(nf, n + 1)| <= |target|
      && DecodeFiles(Body(Cons(0xA7, FileList(c.files, n))), n, target[..|Grouped(nf, n)|])
         == if AllSmall(target, |Grouped(nf, n)|, |Grouped(nf, n + 1)|)
            then Done(target[..|Grouped(nf, n + 1)|]) else Fail(Capacity)
  {
    hide DecodeFiles, FileList, Encodable, Body, Valid, Admissible, Shaped, NormalFile, Grouped, Regrouped, FilesOf, AllSmall;
    var nf := NormalFiles(c.files);
    OwnFiles(c, n);
    FileListReads(0xA7, c.files, n, Regrouped(nf, |c.apps|), |Grouped(nf, n)|);
  }

  /** One application and its files, behind those already decoded. */
  lemma AppAndFilesRead(c: Credential, n: nat, rest: octets)
    requires Valid(c) && n < |c.apps| && CredentialWritable(c)
    requires Admissible(Regrouped(NormalFiles(c.files), |c.apps|))
    requires AllEncodable(AppItems(c.apps, c.card.generation, c.files)[n])
    requires |AllOctets(AppItems(c.apps, c.card.generation, c.files)[n])| <= 0xFFFF
    ensures var g := c.card.generation;
      var nf, picc, apps := NormalFiles(c.files), NormalPicc(c.picc, g), NormalApps(c.apps, g);
      var target := Regrouped(nf, |c.apps|);
      && |Grouped(nf, n)| <= |Grouped(nf, n + 1)| <= |target|
      && DecodeApps(Tlv(TAG_SEQUENCE, AllOctets(AppItems(c.apps, g, c.files)[n])) + rest, picc, apps[..n],
                    target[..|Grouped(nf, n)|])
         == if AllSmall(target, |Grouped(nf, n)|, |Grouped(nf, n + 1)|)
            then DecodeApps(rest, picc, apps[..n + 1], target[..|Grouped(nf, n + 1)|]) else Fail(Capacity)
  {
    hide Flatten, AllOctets, AllEncodable, DecodeApp, DecodeFiles, DecodeApps, AppSlots, Encodable, Bodies, SlotsEncodable,
         KeyUse, AppOk, FileOk, Admissible, ReadFields, Tlv, FileList, Body, PiccOk, CardOk, Shaped, NormalFile, AllSmall;
    var g := c.card.generation;
    var nf, picc, apps := NormalFiles(c.files), NormalPicc(c.picc, g), NormalApps(c.apps, g);
    var target, a, used := Regrouped(nf, |c.apps|), c.apps[n], TotalKeyUse(picc, apps[..n]);
    assert AppItems(c.apps, g, c.files)[n] == Flatten(AppSlots(a, n, g, c.files));
    assert AppOk(a, g);
    assert FidOk(a.isoFid);
    UsedKeys(c, n);
    var r := AppRecord(a, n, g, c.files);
    AppReads(a, n, g, c.files, apps[..n], used);
    OwnFilesRead(c, n);
    NormalAppsPush(c.apps, g, n);
    AppsStep(AllOctets(Flatten(AppSlots(a, n, g, c.files))), rest, r, picc, apps[..n], target[..|Grouped(nf, n)|],
             NormalApp(a, g));
  }

  lemma UsedKeys(c: Credential, n: nat)
    requires Valid(c) && n < |c.apps|
    ensures var g := c.card.generation;
      TotalKeyUse(NormalPicc(c.picc, g), NormalApps(c.apps, g)[..n]) + KeyUse(c.apps[n].ks2, c.apps[n].store) <= KEY_POOL_SIZE
  {
    hide KeyUse, AppOk, FileOk, PiccOk, CardOk;
    var g := c.card.generation;
    var apps := NormalApps(c.apps, g);
    KeyUsePrefix(apps, n);
    KeyUsePrefix(apps, n + 1);
    KeyUseSpelledOut(c.apps, g);
  }

  lemma AllSmallSplit(target: seq<File>, a: nat, b: nat, c: nat)
    requires a <= b <= c <= |target|
    ensures AllSmall(target, a, c) <==> AllSmall(target, a, b) && AllSmall(target, b, c)
  {
  }

  /** A list from its item number `n` on. */
  function ListFrom(items: seq<seq<Node>>, n: nat): octets
    requires ItemsEncodable(items) && n <= |items|
  {
    ListOctets(TAG_SEQUENCE, ItemBodies(items)[n..])
  }

  lemma ListFromStep(items: seq<seq<Node>>, n: nat)
    requires ItemsEncodable(items) && n < |items|
    ensures ListFrom(items, n) == Tlv(TAG_SEQUENCE, AllOctets(items[n])) + ListFrom(items, n + 1)
  {
    hide Tlv, AllOctets, AllEncodable;
    var bodies := ItemBodies(items);
    assert bodies[n..][0] == bodies[n] && bodies[n..][1..] == bodies[n + 1..];
  }

  lemma {:induction false} AppsRead(c: Credential, n: nat)
    requires Valid(c) && n <= |c.apps| && CredentialWritable(c)
    requires Admissible(Regrouped(NormalFiles(c.files), |c.apps|))
    requires ItemsEncodable(AppItems(c.apps, c.card.generation, c.files))
    ensures var g := c.card.generation;
      var nf, picc, apps := NormalFiles(c.files), NormalPicc(c.picc, g), NormalApps(c.apps, g);
      var target := Regrouped(nf, |c.apps|);
      && |Grouped(nf, n)| <= |target| && |Grouped(nf, |c.apps|)| <= |target|
      && DecodeApps(ListFrom(AppItems(c.apps, g, c.files), n), picc, apps[..n], target[..|Grouped(nf, n)|])
         == if AllSmall(target, |Grouped(nf, n)|, |Grouped(nf, |c.apps|)|)
            then Done((apps, target[..|Grouped(nf, |c.apps|)|])) else Fail(Capacity)
    decreases |c.apps| - n
  {
    hide Flatten, AllOctets, AllEncodable, AppSlots, Valid, Admissible, Tlv, AllSmall, Grouped;
    var g := c.card.generation;
    var nf, apps, items := NormalFiles(c.files), NormalApps(c.apps, g), AppItems(c.apps, g, c.files);
    if n < |c.apps| {
      hide DecodeApps, ListFrom;
      ListFromStep(items, n);
      AppAndFilesRead(c, n, ListFrom(items, n + 1));
      AppsRead(c, n + 1);
      GroupPosition(nf, |c.apps|, n);
      AllSmallSplit(Regrouped(nf, |c.apps|), |Grouped(nf, n)|, |Grouped(nf, n + 1)|, |Grouped(nf, |c.apps|)|);
    } else {
      NoneLarge(Regrouped(nf, |c.apps|), |Grouped(nf, n)|);
      assert ItemBodies(items)[n..] == [] && apps[..n] == apps;
    }
  }

  // ---- The credential ---------------------------------------------------------------------

  lemma CardReads(c: Card)
    requires CardOk(c) && AllEncodable(Flatten(CardSlots(c)))
    ensures DecodeCard(AllOctets(Flatten(CardSlots(c)))) == Done(c)
  {
    hide Flatten, AllOctets, AllEncodable, ReadFields, IntOctets, Unsigned;
    OrdersOk();
    RecordReads(CARD_ORDER, CardSlots(c));
    UnsignedReads(c.generation, 0xFF);
    UnsignedReads(c.storage, 0xFFFF_FFFF);
    UnsignedReads(c.provenance, 0xFF);
  }

  lemma PiccSettingsAligned(p: Picc, generation: nat)
    ensures forall i :: 0 <= i < 9 && PiccSettings(p, generation)[i].Some? ==>
      PiccSettings(p, generation)[i].value.tag == PICC_ORDER[i]
  {
    hide IntOctets, AuthMask;
  }

  lemma PiccContentsAligned(p: Picc, files: seq<File>)
    requires AllWritable(FilesOf(files, PICC_OWNER))
    ensures forall i :: 0 <= i < 8 && PiccContents(p, files)[i].Some? ==>
      PiccContents(p, files)[i].value.tag == PICC_ORDER[9 + i]
  {
    hide Flatten, IntOctets, KeyList, FileList;
  }

  lemma PiccSlotsAligned(p: Picc, generation: nat, files: seq<File>)
    requires AllWritable(FilesOf(files, PICC_OWNER))
    ensures Aligned(PICC_ORDER, 0, PiccSlots(p, generation, files))
  {
    hide PiccSettings, PiccContents;
    PiccSettingsAligned(p, generation);
    PiccContentsAligned(p, files);
    var slots := PiccSlots(p, generation, files);
    assert |PICC_ORDER| == 17;
    forall i | 0 <= i < 17 && slots[i].Some?
      ensures slots[i].value.tag == PICC_ORDER[i]
    {
      if i < 9 {
        assert slots[i] == PiccSettings(p, generation)[i];
      } else {
        assert slots[i] == PiccContents(p, files)[i - 9];
      }
    }
  }

  lemma PiccRecord(p: Picc, generation: nat, files: seq<File>) returns (r: Record)
    requires AllWritable(FilesOf(files, PICC_OWNER)) && AllEncodable(Flatten(PiccSlots(p, generation, files)))
    ensures SlotsEncodable(PiccSlots(p, generation, files)) && r == Bodies(PiccSlots(p, generation, files)) && |r| == 17
    ensures ReadFields(PICC_ORDER, 0, AllOctets(Flatten(PiccSlots(p, generation, files)))) == Some(r)
  {
    hide Flatten, AllOctets, AllEncodable, ReadFields, Encodable, OrderOk, Aligned;
    PiccOrderOk();
    PiccSlotsAligned(p, generation, files);
    RecordReads(PICC_ORDER, PiccSlots(p, generation, files));
    r := Bodies(PiccSlots(p, generation, files));
  }

  lemma PiccSettingsRead(p: Picc, generation: nat, files: seq<File>)
    requires AllWritable(FilesOf(files, PICC_OWNER)) && SlotsEncodable(PiccSlots(p, generation, files))
    ensures var r := Bodies(PiccSlots(p, generation, files));
      && r[0] == Some([p.ks1]) && r[1] == Some([p.ks2])
      && r[2] == Some(IntOctets(AuthMask(p.auth, p.ks2, generation)))
      && r[3] == (if p.randomId then Some([0xFF]) else None) && r[4] == (if p.formatDisabled then Some([0xFF]) else None)
      && r[5] == (if p.ats != [] then Some(p.ats) else None)
      && r[6] == (if p.sak.Some? then Some([p.sak.value]) else None) && r[7] == p.atqa
      && r[8] == (if p.smDisable.Some? then Some([p.smDisable.value]) else None)
  {
    hide Flatten, AllOctets, AllEncodable, IntOctets, AuthMask, Encodable, PiccContents;
    var slots, head := PiccSlots(p, generation, files), PiccSettings(p, generation);
    assert forall i :: 0 <= i < 9 ==> slots[i] == head[i];
    hide PiccSlots;
  }

  lemma PiccContentsRead(p: Picc, generation: nat, files: seq<File>)
    requires AllWritable(FilesOf(files, PICC_OWNER)) && SlotsEncodable(PiccSlots(p, generation, files))
    ensures Encodable(Cons(0xA9, KeyList(p.keys))) && Encodable(Cons(0xAA, FileList(files, PICC_OWNER)))
    ensures var r := Bodies(PiccSlots(p, generation, files));
      && r[9] == Some(Body(Cons(0xA9, KeyList(p.keys)))) && r[10] == Some(Body(Cons(0xAA, FileList(files, PICC_OWNER))))
      && r[11] == None && r[12] == None && r[13] == None && r[14] == None
      && r[15] == (if p.preferred.Some? then Some(IntOctets(p.preferred.value)) else None)
      && r[16] == (if p.legacyId then Some([0xFF]) else None)
  {
    hide Flatten, AllOctets, AllEncodable, IntOctets, KeyList, FileList, Encodable, PiccSettings;
    var slots, tail := PiccSlots(p, generation, files), PiccContents(p, files);
    assert forall i :: 9 <= i < 17 ==> slots[i] == tail[i - 9];
    assert slots[9] == Some(Cons(0xA9, KeyList(p.keys))) && slots[10] == Some(Cons(0xAA, FileList(files, PICC_OWNER)));
  }

  lemma FlagReads(v: bool)
    ensures DefaultFalse(if v then Some([0xFF]) else None) == Done(v)
  {
  }

  lemma OptionalOneReads(v: Option<byte>)
    ensures OptionalOne(if v.Some? then Some([v.value]) else None) == Done(v)
  {
  }

  lemma OptionalFixedReads(v: Option<octets>, n: nat)
    requires v.Some? ==> |v.value| == n
    ensures OptionalFixed(v, n) == Done(v)
  {
  }

  lemma PreferredReads(v: Option<byte>)
    requires v.Some? ==> v.value as int <= AUTH_ALL
    ensures Preferred(if v.Some? then Some(IntOctets(v.value)) else None) == Done(v)
  {
    if v.Some? { UnsignedReads(v.value, AUTH_ALL); }
  }

  lemma AnswerReads(ats: octets)
    requires |ats| <= ATS_MAX
    ensures AnswerToSelect(if ats != [] then Some(ats) else None) == Done(ats)
  {
  }

  /** The settings are read back, with the mask spelled out. */
  lemma PiccSettingsDecode(p: Picc, generation: nat, files: seq<File>)
    requires PiccOk(p, generation) && AllWritable(FilesOf(files, PICC_OWNER))
    requires SlotsEncodable(PiccSlots(p, generation, files))
    ensures DecodePiccSettings(Bodies(PiccSlots(p, generation, files))) == Done(SettingsOnly(p, generation))
  {
    hide IntOctets, Unsigned, PiccSlots, Bodies, SlotsEncodable, Bit, Covers, FileList, Body, AuthMask, KeyList,
         DefaultFalse, Preferred;
    PiccSettingsRead(p, generation, files);
    PiccContentsRead(p, generation, files);
    UnsignedReads(AuthMask(p.auth, p.ks2, generation), AUTH_ALL);
    PreferredReads(p.preferred);
    FlagReads(p.randomId);
    FlagReads(p.legacyId);
    FlagReads(p.formatDisabled);
  }

  function SettingsOnly(p: Picc, generation: nat): Picc
  {
    NormalPicc(p, generation).(ats := [], sak := None, atqa := None, smDisable := None, keys := [Key(Zeros(16), 0)])
  }

  lemma PiccIdentityDecode(p: Picc, generation: nat, files: seq<File>)
    requires PiccOk(p, generation) && AllWritable(FilesOf(files, PICC_OWNER))
    requires SlotsEncodable(PiccSlots(p, generation, files))
    ensures DecodePiccIdentity(Bodies(PiccSlots(p, generation, files)), SettingsOnly(p, generation))
            == Done(NormalPicc(p, generation).(keys := [Key(Zeros(16), 0)]))
  {
    hide IntOctets, PiccSlots, Bodies, SlotsEncodable, AuthOk, PlainKeysOk, AuthMask, OptionalOne, OptionalFixed,
         AnswerToSelect;
    PiccSettingsRead(p, generation, files);
    AnswerReads(p.ats);
    OptionalOneReads(p.sak);
    OptionalOneReads(p.smDisable);
    OptionalFixedReads(p.atqa, 2);
  }

  lemma PiccReads(p: Picc, generation: nat, files: seq<File>)
    requires PiccOk(p, generation) && AllWritable(FilesOf(files, PICC_OWNER))
    requires |p.keys| * Stride(KeyLength(p.ks2)) <= KEY_POOL_SIZE
    requires AllEncodable(Flatten(PiccSlots(p, generation, files)))
    ensures SlotsEncodable(PiccSlots(p, generation, files))
    ensures DecodePicc(Bodies(PiccSlots(p, generation, files))) == Done(NormalPicc(p, generation))
  {
    hide Flatten, AllOctets, AllEncodable, ReadFields, IntOctets, Encodable, PiccSlots, Bodies, SlotsEncodable,
         DecodeKeys, DecodePiccSettings, DecodePiccIdentity, FileList, Body, KeyList, Stride, AuthOk;
    var r := PiccRecord(p, generation, files);
    PiccSettingsDecode(p, generation, files);
    PiccIdentityDecode(p, generation, files);
    PiccContentsRead(p, generation, files);
    PiccKeysRead(p);
  }

  lemma PiccKeysRead(p: Picc)
    requires PlainKeysOk(p.keys, p.ks2) && |p.keys| * Stride(KeyLength(p.ks2)) <= KEY_POOL_SIZE
    requires Encodable(Cons(0xA9, KeyList(p.keys)))
    ensures DecodeKeys(Body(Cons(0xA9, KeyList(p.keys))), KeyLength(p.ks2), 0) == Done(p.keys)
  {
    hide AllOctets, DecodeKeys, KeyList;
    ConsParts(0xA9, KeyList(p.keys));
    KeysRead(p.keys, KeyLength(p.ks2), 0);
  }

  /** No file holds more than the decoder will store in one. */
  predicate FilesFit(c: Credential)
  {
    forall i :: 0 <= i < |c.files| ==> StoredSize(Written(c.files[i].contents)) <= MAX_FILE_DATA
  }

  lemma NormalAdmissible(c: Credential)
    requires Valid(c)
    ensures Admissible(Normal(c).files)
    ensures FilesFit(c) <==> AllSmall(Normal(c).files, 0, |Normal(c).files|)
  {
    hide FileOk, TotalStored, StoredSize, Written, Regrouped, Distinct, Normal;
    NormalFilesValid(c);
    var files, nf := Normal(c).files, NormalFiles(c.files);
    if FilesFit(c) {
      forall i | 0 <= i < |files|
        ensures Small(files[i])
      {
        assert files[i] in multiset(files);
        assert files[i] in nf;
        var k :| 0 <= k < |nf| && nf[k] == files[i];
        assert StoredSize(Written(c.files[k].contents)) <= MAX_FILE_DATA;
      }
    }
    if AllSmall(files, 0, |files|) {
      forall i | 0 <= i < |c.files|
        ensures StoredSize(Written(c.files[i].contents)) <= MAX_FILE_DATA
      {
        assert nf[i] in multiset(nf);
        assert nf[i] in files;
        var k :| 0 <= k < |files| && files[k] == nf[i];
        assert Small(files[k]);
      }
    }
  }

  lemma AppListReads(c: Credential)
    requires Valid(c) && CredentialWritable(c) && Admissible(Normal(c).files)
    requires Encodable(Cons(0xA3, Listed(TAG_SEQUENCE, AppItems(c.apps, c.card.generation, c.files))))
    ensures var n, at := Normal(c), |Grouped(NormalFiles(c.files), |c.apps|)|;
      && at <= |n.files|
      && DecodeApps(Body(Cons(0xA3, Listed(TAG_SEQUENCE, AppItems(c.apps, c.card.generation, c.files)))), n.picc, [], [])
         == if AllSmall(n.files, 0, at) then Done((n.apps, n.files[..at])) else Fail(Capacity)
  {
    hide AllOctets, DecodeApps, Admissible, Flatten, Valid, AppSlots, ListOctets;
    var items := AppItems(c.apps, c.card.generation, c.files);
    ListedOctets(TAG_SEQUENCE, items);
    AppsRead(c, 0);
    assert ItemBodies(items)[0..] == ItemBodies(items);
    assert ListFrom(items, 0) == ListOctets(TAG_SEQUENCE, ItemBodies(items));
    assert Grouped(NormalFiles(c.files), 0) == [] && Normal(c).files[..0] == [] && Normal(c).apps[..0] == [];
  }

  lemma PiccFilesRead(c: Credential)
    requires Valid(c) && CredentialWritable(c) && Admissible(Normal(c).files)
    requires Encodable(Cons(0xAA, FileList(c.files, PICC_OWNER)))
    ensures var n, at := Normal(c), |Grouped(NormalFiles(c.files), |c.apps|)|;
      && at <= |n.files|
      && DecodeFiles(Body(Cons(0xAA, FileList(c.files, PICC_OWNER))), PICC_OWNER, n.files[..at])
         == if AllSmall(n.files, at, |n.files|) then Done(n.files) else Fail(Capacity)
  {
    hide DecodeFiles, FileList, Encodable, Body, Valid, Admissible, Shaped, NormalFile, Grouped, FilesOf;
    var n, at := Normal(c), |Grouped(NormalFiles(c.files), |c.apps|)|;
    PiccFiles(c);
    FileListReads(0xAA, c.files, PICC_OWNER, n.files, at);
    assert n.files[..at + |FilesOf(c.files, PICC_OWNER)|] == n.files;
  }

  lemma PiccFiles(c: Credential)
    requires Valid(c)
    ensures var own, at, target := FilesOf(c.files, PICC_OWNER), |Grouped(NormalFiles(c.files), |c.apps|)|, Normal(c).files;
      && at + |own| == |target|
      && forall k :: 0 <= k < |own| ==> Shaped(own[k]) && target[at + k] == NormalFile(own[k])
  {
    hide NormalFile, Valid, Shaped, Grouped;
    FilesOfNormal(c.files, PICC_OWNER);
    FilesOfFrom(c.files, PICC_OWNER);
    ShapedFiles(c);
    var own, nf := FilesOf(c.files, PICC_OWNER), NormalFiles(c.files);
    forall k | 0 <= k < |own|
      ensures Shaped(own[k]) && Normal(c).files[|Grouped(nf, |c.apps|)| + k] == NormalFile(own[k])
    {
      assert own[k] in c.files;
      assert Normal(c).files[|Grouped(nf, |c.apps|)| + k] == FilesOf(nf, PICC_OWNER)[k];
    }
  }

  lemma CredentialRecord(c: Credential) returns (r: Record)
    requires CredentialWritable(c) && AllEncodable(Flatten(CredentialSlots(c)))
    ensures |r| == 4 && ReadFields(CREDENTIAL_ORDER, 0, AllOctets(Flatten(CredentialSlots(c)))) == Some(r)
    ensures r[0] == Some(IntOctets(FORMAT_VERSION))
    ensures AllEncodable(Flatten(CardSlots(c.card))) && r[1] == Some(AllOctets(Flatten(CardSlots(c.card))))
    ensures AllEncodable(Flatten(PiccSlots(c.picc, c.card.generation, c.files)))
    ensures r[2] == Some(AllOctets(Flatten(PiccSlots(c.picc, c.card.generation, c.files))))
    ensures var list := Cons(0xA3, Listed(TAG_SEQUENCE, AppItems(c.apps, c.card.generation, c.files)));
            Encodable(list) && r[3] == Some(Body(list))
  {
    hide Flatten, AllOctets, ReadFields, IntOctets, CardSlots, PiccSlots, AppItems, AllEncodable;
    OrdersOk();
    var slots := CredentialSlots(c);
    RecordReads(CREDENTIAL_ORDER, slots);
    assert Encodable(slots[1].value) && Encodable(slots[2].value) && Encodable(slots[3].value);
    r := Bodies(slots);
  }

  /** Whatever the encoder produced for a valid credential is read back, in normal form,
      if and only if every file is small enough to be stored. */
  lemma RoundTrip(c: Credential)
    requires Valid(c)
    ensures CredentialWritable(c)
    ensures var root := Cons(TAG_CREDENTIAL, Flatten(CredentialSlots(c)));
      Encodable(root) && SizeOf(root) <= DER_MAX_SIZE ==>
        DecodeCredential(NodeOctets(root)) == if FilesFit(c) then Done(Normal(c)) else Fail(Capacity)
  {
    hide Flatten, CredentialSlots, DecodeCredential;
    ValidIsWritable(c);
    var root := Cons(TAG_CREDENTIAL, Flatten(CredentialSlots(c)));
    if Encodable(root) && SizeOf(root) <= DER_MAX_SIZE { DecodesToNormal(c); }
  }

  lemma DecodesToNormal(c: Credential)
    requires Valid(c) && CredentialWritable(c)
    requires Encodable(Cons(TAG_CREDENTIAL, Flatten(CredentialSlots(c))))
    requires SizeOf(Cons(TAG_CREDENTIAL, Flatten(CredentialSlots(c)))) <= DER_MAX_SIZE
    ensures DecodeCredential(NodeOctets(Cons(TAG_CREDENTIAL, Flatten(CredentialSlots(c)))))
            == if FilesFit(c) then Done(Normal(c)) else Fail(Capacity)
  {
    hide Flatten, AllOctets, AllEncodable, ReadFields, IntOctets, Unsigned, DecodeCard, DecodePicc, DecodeApps, DecodeFiles,
         ParseTlv, Tlv, Encodable, Body, Bodies, SlotsEncodable, CardSlots, PiccSlots, AppItems, FileList, CredentialSlots,
         CardOk, PiccOk, AppOk, FileOk, Admissible, FilesFit, Stride, KeyLength, TotalStored, Distinct, Small;
    var g, kids := c.card.generation, Flatten(CredentialSlots(c));
    ConsParts(TAG_CREDENTIAL, kids);
    NodeIsTlv(Cons(TAG_CREDENTIAL, kids));
    EncodingParses(kids);
    var r := CredentialRecord(c);
    UnsignedReads(FORMAT_VERSION, 0xFF);
    CardReads(c.card);
    var p := PiccRecord(c.picc, g, c.files);
    PiccContentsRead(c.picc, g, c.files);
    assert |c.picc.keys| * Stride(KeyLength(c.picc.ks2)) <= KEY_POOL_SIZE;
    PiccReads(c.picc, g, c.files);
    NormalAdmissible(c);
    AppListReads(c);
    PiccFilesRead(c);
    NormalValid(c);
  }

  lemma EncodingParses(kids: seq<Node>)
    requires Encodable(Cons(TAG_CREDENTIAL, kids))
    ensures var e := ParseTlv(NodeOctets(Cons(TAG_CREDENTIAL, kids)));
      && e.Some? && e.value.tag == TAG_CREDENTIAL && e.value.rest == [] && e.value.body == AllOctets(kids)
  {
    LengthOfPadded(kids, []);
    assert NodeOctets(Cons(TAG_CREDENTIAL, kids)) + [] == NodeOctets(Cons(TAG_CREDENTIAL, kids));
    WrittenIsRead(TAG_CREDENTIAL, AllOctets(kids), []);
  }

  // ---- What normal form keeps -------------------------------------------------------------

  /** Every owner has the same files after the round trip, in the same order, with only
      records dropped that were never written. */
  lemma OwnersKeepNormalFiles(c: Credential, owner: nat)
    requires Valid(c) && (owner < |c.apps| || owner == PICC_OWNER)
    ensures FilesOf(Normal(c).files, owner) == NormalFiles(FilesOf(c.files, owner))
  {
    OwnersKeepFiles(NormalFiles(c.files), |c.apps|, owner);
    FilesOfNormal(c.files, owner);
  }

  lemma NormalSlots(f: File)
    requires Writable(f)
    ensures Writable(NormalFile(f)) && FileSlots(NormalFile(f)) == FileSlots(f)
  {
  }

  lemma NormalFileList(c: Credential, owner: nat)
    requires Valid(c) && (owner < |c.apps| || owner == PICC_OWNER) && AllWritable(FilesOf(c.files, owner))
    ensures AllWritable(FilesOf(Normal(c).files, owner)) && FileList(Normal(c).files, owner) == FileList(c.files, owner)
  {
    hide Flatten, Valid, Normal, NormalFile, FileSlots;
    OwnersKeepNormalFiles(c, owner);
    var own := FilesOf(c.files, owner);
    forall i | 0 <= i < |own|
      ensures Writable(NormalFiles(own)[i]) && FileSlots(NormalFiles(own)[i]) == FileSlots(own[i])
    {
      NormalSlots(own[i]);
    }
    assert FileItems(NormalFiles(own)) == FileItems(own);
  }

  /** Normal form has the same encoding: decoding and encoding again changes nothing. */
  lemma NormalEncodesAlike(c: Credential)
    requires Valid(c)
    ensures CredentialWritable(c) && CredentialWritable(Normal(c))
    ensures CredentialSlots(Normal(c)) == CredentialSlots(c)
  {
    hide Flatten, Valid, AppOk, FileList, KeyList, SetsSlots, FilesOf, IntOctets;
    ValidIsWritable(c);
    NormalFileList(c, PICC_OWNER);
    var n, g := Normal(c), c.card.generation;
    forall i | 0 <= i < |c.apps|
      ensures FidOk(n.apps[i].isoFid) && AllWritable(FilesOf(n.files, i))
      ensures AppSlots(n.apps[i], i, g, n.files) == AppSlots(c.apps[i], i, g, c.files)
    {
      NormalFileList(c, i);
    }
    assert AppItems(n.apps, g, n.files) == AppItems(c.apps, g, c.files);
    assert PiccSlots(n.picc, g, n.files) == PiccSlots(c.picc, g, c.files);
  }
}
