/** The binary layout as its documentation tabulates it, written straight onto octets: the
    encoder's elements, nested and back-patched, come out as exactly these octets. */
module DerLayout {
  import opened Bytes
  import opened Limits
  import opened DerTlv
  import opened DerInteger
  import opened DerWriter
  import opened DerFields
  import opened DerRecords
  import opened DerSchema
  import opened DerEncoder

  /** One line of a table: a tag, and the body when the field is there. */
  datatype Row = Row(tag: byte, body: Option<octets>)

  /** An element, or nothing when the format cannot state its length. */
  function Laid(tag: byte, body: octets): octets
  {
    var n := |body|;
    if n < 0x80 then [tag, n] + body
    else if n < 0x100 then [tag, 0x81, n] + body
    else if n < 0x10000 then [tag, 0x82, n / 0x100, n % 0x100] + body
    else []
  }

  lemma LaidIsTlv(tag: byte, body: octets)
    requires |body| <= 0xFFFF
    ensures Laid(tag, body) == Tlv(tag, body)
  {
  }

  function Rows(rows: seq<Row>): octets
  {
    if rows == [] then []
    else (if rows[0].body.Some? then Laid(rows[0].tag, rows[0].body.value) else []) + Rows(rows[1..])
  }

  function List(tag: byte, bodies: seq<octets>): octets
  {
    if bodies == [] then [] else Laid(tag, bodies[0]) + List(tag, bodies[1..])
  }

  function U(v: int): Option<octets>
  {
    Some(IntOctets(v))
  }

  function X1(v: byte): Option<octets>
  {
    Some([v])
  }

  function X2(v: nat): Option<octets>
    requires v < 65536
  {
    Some([v / 256, v % 256])
  }

  function B(v: bool): Option<octets>
  {
    Some([if v then 0xFF else 0x00])
  }

  /** A flag whose false is left out. */
  function Set(v: bool): Option<octets>
  {
    if v then B(true) else None
  }

  function MaybeX1(v: Option<byte>): Option<octets>
  {
    if v.Some? then X1(v.value) else None
  }

  function MaybeX2(v: Option<nat>): Option<octets>
    requires v.Some? ==> v.value < 65536
  {
    if v.Some? then X2(v.value) else None
  }

  function MaybeU(v: Option<byte>): Option<octets>
  {
    if v.Some? then U(v.value) else None
  }

  function MaybeX(v: octets): Option<octets>
  {
    if v != [] then Some(v) else None
  }

  // ---- The tables -------------------------------------------------------------------------

  function KeyTable(slot: nat, k: Key): octets
  {
    Rows([Row(0x80, U(slot)), Row(0x81, Some(k.value)), Row(0x82, X1(k.version))])
  }

  function KeyTables(keys: seq<Key>): (t: seq<octets>)
    ensures |t| == |keys| && forall i :: 0 <= i < |t| ==> t[i] == KeyTable(i, keys[i])
  {
    seq(|keys|, i requires 0 <= i < |keys| => KeyTable(i, keys[i]))
  }

  function SetTable(number: nat, s: KeySet): octets
  {
    Rows([Row(0x80, U(number)), Row(0x81, X1(s.version)), Row(0x82, U(s.kind)), Row(0x83, B(s.initialized)),
          Row(0xA4, Some(List(0x30, KeyTables(s.keys))))])
  }

  function SetTables(sets: seq<KeySet>): (t: seq<octets>)
    ensures |t| == |sets| && forall i :: 0 <= i < |t| ==> t[i] == SetTable(i, sets[i])
  {
    seq(|sets|, i requires 0 <= i < |sets| => SetTable(i, sets[i]))
  }

  function SetsTable(count: nat, maxSize: nat, settings: byte, sets: seq<KeySet>): octets
  {
    Rows([Row(0x80, U(count)), Row(0x81, U(maxSize)), Row(0x82, X1(settings)), Row(0xA3, Some(List(0x30, SetTables(sets))))])
  }

  function DataTable(size: nat, known: octets, complete: bool): octets
  {
    Rows([Row(0x80, U(size)), Row(0x81, MaybeX(known)), Row(0x82, B(complete))])
  }

  /** The code writes a fifth field, the limit left for limited credits, when it is not zero. */
  function ValueTable(lower: int, upper: int, current: int, limited: byte, limit: int): octets
  {
    Rows([Row(0x80, U(lower)), Row(0x81, U(upper)), Row(0x82, U(current)), Row(0x83, X1(limited)),
          Row(0x84, if limit == 0 then None else U(limit))])
  }

  function RecordTable(size: nat, max: nat, count: nat, complete: bool, stored: seq<octets>): octets
  {
    Rows([Row(0x80, U(size)), Row(0x81, U(max)), Row(0x82, U(count)), Row(0x83, B(complete)),
          Row(0xA4, Some(List(0x04, if |stored| > count then stored[..count] else stored)))])
  }

  function FileTable(f: File): octets
    requires Writable(f)
  {
    var c := f.contents;
    Rows([Row(0x80, U(f.number)), Row(0x81, U(f.kind)), Row(0x82, X1(f.comm)), Row(0x83, X2(f.rights)),
          Row(0x84, MaybeX2(f.isoFid)),
          Row(0xA5, if c.Data? then Some(DataTable(c.size, c.known, c.complete)) else None),
          Row(0xA6, if c.Value? then Some(ValueTable(c.lower, c.upper, c.current, c.limited, c.limit)) else None),
          Row(0xA7, if c.Records? then Some(RecordTable(c.size, c.max, c.count, c.complete, c.stored)) else None),
          Row(0xA8, None), Row(0xA9, None)])
  }

  function FileTables(files: seq<File>): (t: seq<octets>)
    requires AllWritable(files)
    ensures |t| == |files| && forall i :: 0 <= i < |t| ==> t[i] == FileTable(files[i])
  {
    seq(|files|, i requires 0 <= i < |files| => FileTable(files[i]))
  }

  /** The mask of a record that names none: D40 and ISO for DES, ISO for three-key TDEA, and
      for AES its native command, with both EV2 commands from the second generation on. */
  function Mask(auth: Option<byte>, ks2: byte, generation: nat): nat
  {
    if auth.Some? then auth.value
    else if ks2 / 64 == 2 then (if generation >= 2 then 0x1C else 0x04)
    else if ks2 / 64 == 1 then 0x02
    else 0x03
  }

  function CardTable(c: Card): octets
  {
    Rows([Row(0x80, U(c.generation)), Row(0x81, U(c.storage)), Row(0x82, Some(c.uid)), Row(0x83, U(c.provenance)),
          Row(0x84, None), Row(0x85, c.hardware), Row(0x86, c.software)])
  }

  function SettingsRows(p: Picc, generation: nat): seq<Row>
  {
    [Row(0x80, X1(p.ks1)), Row(0x81, X1(p.ks2)), Row(0x82, U(Mask(p.auth, p.ks2, generation))),
     Row(0x83, Set(p.randomId)), Row(0x84, Set(p.formatDisabled)), Row(0x85, MaybeX(p.ats)),
     Row(0x86, MaybeX1(p.sak)), Row(0x87, p.atqa), Row(0x88, MaybeX1(p.smDisable))]
  }

  function ContentsRows(p: Picc, files: seq<File>): seq<Row>
    requires AllWritable(FilesOf(files, 255))
  {
    [Row(0xA9, Some(List(0x30, KeyTables(p.keys)))), Row(0xAA, Some(List(0x30, FileTables(FilesOf(files, 255))))),
     Row(0x8B, None), Row(0xAC, None), Row(0xAD, None), Row(0xAE, None),
     Row(0x8F, MaybeU(p.preferred)), Row(0x90, Set(p.legacyId))]
  }

  function PiccTable(p: Picc, generation: nat, files: seq<File>): octets
    requires AllWritable(FilesOf(files, 255))
  {
    Rows(SettingsRows(p, generation) + ContentsRows(p, files))
  }

  function AppTable(a: App, owner: nat, generation: nat, files: seq<File>): octets
    requires FidOk(a.isoFid) && AllWritable(FilesOf(files, owner))
  {
    Rows([Row(0x80, Some(a.aid)), Row(0x81, MaybeX2(a.isoFid)), Row(0x82, MaybeX(a.dfName)), Row(0x83, X1(a.ks1)),
          Row(0x84, X1(a.ks2)), Row(0x85, U(Mask(a.auth, a.ks2, generation))),
          Row(0xA6, if a.store.Plain? then Some(List(0x30, KeyTables(a.store.keys))) else None),
          Row(0xA7, Some(List(0x30, FileTables(FilesOf(files, owner))))),
          Row(0xA8, if a.store.Plain? then None
                    else Some(SetsTable(NumKeys(a.store), a.store.maxSize, a.store.settings, a.store.sets))),
          Row(0x89, None), Row(0xAA, None), Row(0x8B, MaybeX1(a.smDisable)), Row(0x8C, MaybeU(a.preferred))])
  }

  function AppTables(apps: seq<App>, generation: nat, files: seq<File>): (t: seq<octets>)
    requires AppsWritable(apps, files)
    ensures |t| == |apps| && forall i :: 0 <= i < |t| ==> t[i] == AppTable(apps[i], i, generation, files)
  {
    seq(|apps|, i requires 0 <= i < |apps| => AppTable(apps[i], i, generation, files))
  }

  function CredentialTable(c: Credential): octets
    requires CredentialWritable(c)
  {
    Laid(0x60, Rows([Row(0x80, U(6)), Row(0xA1, Some(CardTable(c.card))),
                        Row(0xA2, Some(PiccTable(c.picc, c.card.generation, c.files))),
                        Row(0xA3, Some(List(0x30, AppTables(c.apps, c.card.generation, c.files))))]))
  }

  // ---- The elements are the tables ----------------------------------------------------------

  /** A slot of the encoder holds what a row of the table asks for. */
  ghost predicate Fills(slot: Option<Node>, row: Row)
  {
    && slot.Some? == row.body.Some?
    && (slot.Some? ==> slot.value.tag == row.tag && (Encodable(slot.value) ==> Body(slot.value) == row.body.value))
  }

  ghost predicate FillAll(slots: Slots, rows: seq<Row>)
  {
    |slots| == |rows| && forall i :: 0 <= i < |slots| ==> Fills(slots[i], rows[i])
  }

  lemma {:induction false} FilledRows(slots: Slots, rows: seq<Row>)
    requires FillAll(slots, rows) && AllEncodable(Flatten(slots))
    ensures AllOctets(Flatten(slots)) == Rows(rows)
  {
    if slots != [] {
      FlattenEncodable(slots);
      var rest := slots[1..];
      assert SlotsEncodable(rest) && FillAll(rest, rows[1..]) by {
        assert forall i :: 0 <= i < |rest| ==> rest[i] == slots[i + 1] && rows[1..][i] == rows[i + 1];
      }
      FlattenEncodable(rest);
      FilledRows(rest, rows[1..]);
      assert Fills(slots[0], rows[0]);
      var head := if slots[0].Some? then [slots[0].value] else [];
      EncodableParts(head, Flatten(rest));
      if slots[0].Some? {
        NodeIsTlv(slots[0].value);
        LaidIsTlv(rows[0].tag, rows[0].body.value);
        assert head[1..] == [];
        assert AllOctets(head) == NodeOctets(slots[0].value);
      }
    }
  }

  lemma {:induction false} ListedAsList(tag: byte, bodies: seq<octets>)
    requires forall i :: 0 <= i < |bodies| ==> |bodies[i]| <= 0xFFFF
    ensures ListOctets(tag, bodies) == List(tag, bodies)
  {
    hide Laid, Tlv;
    if bodies != [] {
      ListedAsList(tag, bodies[1..]);
      LaidIsTlv(tag, bodies[0]);
    }
  }

  /** A list of sequences whose items come out as `tables`. */
  lemma ListFills(items: seq<seq<Node>>, tables: seq<octets>)
    requires |items| == |tables| && AllEncodable(Listed(0x30, items))
    requires forall i :: 0 <= i < |items| ==> AllEncodable(items[i]) ==> AllOctets(items[i]) == tables[i]
    ensures AllOctets(Listed(0x30, items)) == List(0x30, tables)
  {
    hide Listed, AllOctets, AllEncodable;
    ListedOctets(0x30, items);
    assert ItemBodies(items) == tables;
    ListedAsList(0x30, tables);
  }

  lemma KeyLaid(slot: nat, k: Key)
    ensures AllEncodable(Flatten(KeySlots(slot, k))) ==> AllOctets(Flatten(KeySlots(slot, k))) == KeyTable(slot, k)
  {
    hide Flatten, AllOctets, AllEncodable, IntOctets, Rows;
    var rows := [Row(0x80, U(slot)), Row(0x81, Some(k.value)), Row(0x82, X1(k.version))];
    assert FillAll(KeySlots(slot, k), rows);
    if AllEncodable(Flatten(KeySlots(slot, k))) { FilledRows(KeySlots(slot, k), rows); }
  }

  lemma KeysLaid(keys: seq<Key>)
    ensures AllEncodable(KeyList(keys)) ==> AllOctets(KeyList(keys)) == List(0x30, KeyTables(keys))
  {
    hide Flatten, AllOctets, AllEncodable, KeySlots, KeyTable, Listed;
    forall i | 0 <= i < |keys|
      ensures AllEncodable(KeyItems(keys)[i]) ==> AllOctets(KeyItems(keys)[i]) == KeyTables(keys)[i]
    {
      KeyLaid(i, keys[i]);
    }
    if AllEncodable(KeyList(keys)) { ListFills(KeyItems(keys), KeyTables(keys)); }
  }

  /** A constructed element comes out with its children's octets as its body. */
  lemma ConsBody(tag: byte, kids: seq<Node>)
    requires Encodable(Cons(tag, kids))
    ensures AllEncodable(kids) && Body(Cons(tag, kids)) == AllOctets(kids)
  {
  }

  lemma SetLaid(number: nat, s: KeySet)
    ensures AllEncodable(Flatten(SetSlots(number, s))) ==> AllOctets(Flatten(SetSlots(number, s))) == SetTable(number, s)
  {
    hide Flatten, AllOctets, AllEncodable, IntOctets, Rows, KeyList, List, Encodable, Body;
    var slots, keys := SetSlots(number, s), List(0x30, KeyTables(s.keys));
    var rows := [Row(0x80, U(number)), Row(0x81, X1(s.version)), Row(0x82, U(s.kind)), Row(0x83, B(s.initialized)),
                 Row(0xA4, Some(keys))];
    KeysLaid(s.keys);
    if Encodable(Cons(0xA4, KeyList(s.keys))) { ConsBody(0xA4, KeyList(s.keys)); }
    PrimBodies();
    assert FillAll(slots, rows);
    if AllEncodable(Flatten(slots)) { FilledRows(slots, rows); }
  }

  lemma PrimBodies()
    ensures forall tag: byte, body: octets :: Encodable(Prim(tag, body)) ==> Body(Prim(tag, body)) == body
  {
  }

  lemma SetsLaid(count: nat, maxSize: nat, settings: byte, sets: seq<KeySet>)
    ensures var ns := Flatten(SetsSlots(count, maxSize, settings, sets));
      AllEncodable(ns) ==> AllOctets(ns) == SetsTable(count, maxSize, settings, sets)
  {
    hide Flatten, AllOctets, AllEncodable, IntOctets, Rows, List, Encodable, Body, Listed, SetSlots, SetTable;
    var slots, kids := SetsSlots(count, maxSize, settings, sets), Listed(TAG_SEQUENCE, SetItems(sets));
    var rows := [Row(0x80, U(count)), Row(0x81, U(maxSize)), Row(0x82, X1(settings)), Row(0xA3, Some(List(0x30, SetTables(sets))))];
    forall i | 0 <= i < |sets|
      ensures AllEncodable(SetItems(sets)[i]) ==> AllOctets(SetItems(sets)[i]) == SetTables(sets)[i]
    {
      SetLaid(i, sets[i]);
    }
    if Encodable(Cons(0xA3, kids)) {
      ConsBody(0xA3, kids);
      ListFills(SetItems(sets), SetTables(sets));
    }
    PrimBodies();
    assert FillAll(slots, rows);
    if AllEncodable(Flatten(slots)) { FilledRows(slots, rows); }
  }

  lemma DataLaid(size: nat, known: octets, complete: bool)
    ensures var ns := Flatten(DataSlots(size, known, complete));
      AllEncodable(ns) ==> AllOctets(ns) == DataTable(size, known, complete)
  {
    hide Flatten, AllOctets, AllEncodable, IntOctets, Rows;
    var slots := DataSlots(size, known, complete);
    var rows := [Row(0x80, U(size)), Row(0x81, MaybeX(known)), Row(0x82, B(complete))];
    assert FillAll(slots, rows);
    if AllEncodable(Flatten(slots)) { FilledRows(slots, rows); }
  }

  lemma ValueLaid(lower: int, upper: int, current: int, limited: byte, limit: int)
    ensures var ns := Flatten(ValueSlots(lower, upper, current, limited, limit));
      AllEncodable(ns) ==> AllOctets(ns) == ValueTable(lower, upper, current, limited, limit)
  {
    hide Flatten, AllOctets, AllEncodable, IntOctets, Rows;
    var slots := ValueSlots(lower, upper, current, limited, limit);
    var rows := [Row(0x80, U(lower)), Row(0x81, U(upper)), Row(0x82, U(current)), Row(0x83, X1(limited)),
                 Row(0x84, if limit == 0 then None else U(limit))];
    assert FillAll(slots, rows);
    if AllEncodable(Flatten(slots)) { FilledRows(slots, rows); }
  }

  lemma {:induction false} RecordsListed(stored: seq<octets>)
    ensures AllEncodable(RecordList(stored)) ==> AllOctets(RecordList(stored)) == List(0x04, stored)
    decreases |stored|
  {
    if stored != [] {
      RecordsListed(stored[1..]);
      assert RecordList(stored)[1..] == RecordList(stored[1..]);
      if |stored[0]| <= 0xFFFF { LaidIsTlv(0x04, stored[0]); }
    }
  }

  lemma RecordLaid(size: nat, max: nat, count: nat, complete: bool, stored: seq<octets>)
    ensures var ns := Flatten(RecordSlots(size, max, count, complete, stored));
      AllEncodable(ns) ==> AllOctets(ns) == RecordTable(size, max, count, complete, stored)
  {
    hide Flatten, AllOctets, AllEncodable, IntOctets, Rows, List, Encodable, Body, RecordList;
    var slots, kept := RecordSlots(size, max, count, complete, stored), if |stored| > count then stored[..count] else stored;
    var rows := [Row(0x80, U(size)), Row(0x81, U(max)), Row(0x82, U(count)), Row(0x83, B(complete)),
                 Row(0xA4, Some(List(0x04, kept)))];
    RecordsListed(kept);
    if Encodable(Cons(0xA4, RecordList(kept))) { ConsBody(0xA4, RecordList(kept)); }
    PrimBodies();
    assert FillAll(slots, rows);
    if AllEncodable(Flatten(slots)) { FilledRows(slots, rows); }
  }

  function ContentsTable(c: Contents): octets
  {
    match c
    case Data(size, known, complete) => DataTable(size, known, complete)
    case Value(lower, upper, current, limited, limit) => ValueTable(lower, upper, current, limited, limit)
    case Records(size, max, count, complete, stored) => RecordTable(size, max, count, complete, stored)
  }

  lemma ContentsLaid(c: Contents)
    ensures ContentsNode(c).tag == (if c.Data? then 0xA5 else if c.Value? then 0xA6 else 0xA7)
    ensures Encodable(ContentsNode(c)) ==> Body(ContentsNode(c)) == ContentsTable(c)
  {
    hide Flatten, AllOctets, AllEncodable, Encodable, Body, DataSlots, ValueSlots, RecordSlots, DataTable, ValueTable, RecordTable;
    if Encodable(ContentsNode(c)) {
      ConsBody(ContentsNode(c).tag, ContentsNode(c).kids);
      match c
      case Data(size, known, complete) => DataLaid(size, known, complete);
      case Value(lower, upper, current, limited, limit) => ValueLaid(lower, upper, current, limited, limit);
      case Records(size, max, count, complete, stored) => RecordLaid(size, max, count, complete, stored);
    }
  }

  lemma FileLaid(f: File)
    requires Writable(f)
    ensures AllEncodable(Flatten(FileSlots(f))) ==> AllOctets(Flatten(FileSlots(f))) == FileTable(f)
  {
    hide Flatten, AllOctets, AllEncodable, IntOctets, Rows, Encodable, Body, ContentsNode, DataTable, ValueTable, RecordTable;
    var slots, c := FileSlots(f), f.contents;
    var rows := [Row(0x80, U(f.number)), Row(0x81, U(f.kind)), Row(0x82, X1(f.comm)), Row(0x83, X2(f.rights)),
          Row(0x84, MaybeX2(f.isoFid)),
          Row(0xA5, if c.Data? then Some(DataTable(c.size, c.known, c.complete)) else None),
          Row(0xA6, if c.Value? then Some(ValueTable(c.lower, c.upper, c.current, c.limited, c.limit)) else None),
          Row(0xA7, if c.Records? then Some(RecordTable(c.size, c.max, c.count, c.complete, c.stored)) else None),
          Row(0xA8, None), Row(0xA9, None)];
    ContentsLaid(c);
    PrimBodies();
    assert FillAll(slots, rows);
    if AllEncodable(Flatten(slots)) { FilledRows(slots, rows); }
  }

  lemma FilesLaid(files: seq<File>, owner: nat)
    requires AllWritable(FilesOf(files, owner))
    ensures AllEncodable(FileList(files, owner)) ==>
      AllOctets(FileList(files, owner)) == List(0x30, FileTables(FilesOf(files, owner)))
  {
    hide Flatten, AllOctets, AllEncodable, FileSlots, FileTable, Listed, FilesOf;
    var own := FilesOf(files, owner);
    forall i | 0 <= i < |own|
      ensures AllEncodable(FileItems(own)[i]) ==> AllOctets(FileItems(own)[i]) == FileTables(own)[i]
    {
      FileLaid(own[i]);
    }
    if AllEncodable(FileList(files, owner)) { ListFills(FileItems(own), FileTables(own)); }
  }

  lemma CardLaid(c: Card)
    ensures AllEncodable(Flatten(CardSlots(c))) ==> AllOctets(Flatten(CardSlots(c))) == CardTable(c)
  {
    hide Flatten, AllOctets, AllEncodable, IntOctets, Rows;
    var rows := [Row(0x80, U(c.generation)), Row(0x81, U(c.storage)), Row(0x82, Some(c.uid)), Row(0x83, U(c.provenance)),
                 Row(0x84, None), Row(0x85, c.hardware), Row(0x86, c.software)];
    assert FillAll(CardSlots(c), rows);
    if AllEncodable(Flatten(CardSlots(c))) { FilledRows(CardSlots(c), rows); }
  }

  lemma MaskOfRecord(auth: Option<byte>, ks2: byte, generation: nat)
    ensures AuthMask(auth, ks2, generation) as int == Mask(auth, ks2, generation)
  {
  }

  lemma SettingsFill(p: Picc, generation: nat)
    ensures FillAll(PiccSettings(p, generation), SettingsRows(p, generation))
  {
    hide IntOctets, Encodable, Body, AuthMask, Mask;
    MaskOfRecord(p.auth, p.ks2, generation);
    PrimBodies();
  }

  lemma ContentsFill(p: Picc, files: seq<File>)
    requires AllWritable(FilesOf(files, PICC_OWNER))
    ensures FillAll(PiccContents(p, files), ContentsRows(p, files))
  {
    hide AllOctets, AllEncodable, IntOctets, List, Encodable, Body, KeyList, FileList, FilesOf;
    KeysLaid(p.keys);
    FilesLaid(files, PICC_OWNER);
    if Encodable(Cons(0xA9, KeyList(p.keys))) { ConsBody(0xA9, KeyList(p.keys)); }
    if Encodable(Cons(0xAA, FileList(files, PICC_OWNER))) { ConsBody(0xAA, FileList(files, PICC_OWNER)); }
    PrimBodies();
  }

  lemma PiccLaid(p: Picc, generation: nat, files: seq<File>)
    requires AllWritable(FilesOf(files, PICC_OWNER))
    ensures var ns := Flatten(PiccSlots(p, generation, files));
      AllEncodable(ns) ==> AllOctets(ns) == PiccTable(p, generation, files)
  {
    hide Flatten, AllOctets, AllEncodable, IntOctets, Rows, PiccSettings, PiccContents, Fills, FilesOf;
    var slots, rows := PiccSlots(p, generation, files), SettingsRows(p, generation) + ContentsRows(p, files);
    SettingsFill(p, generation);
    ContentsFill(p, files);
    assert FillAll(slots, rows);
    if AllEncodable(Flatten(slots)) { FilledRows(slots, rows); }
  }

  lemma AppLaid(a: App, owner: nat, generation: nat, files: seq<File>)
    requires FidOk(a.isoFid) && AllWritable(FilesOf(files, owner))
    ensures var ns := Flatten(AppSlots(a, owner, generation, files));
      AllEncodable(ns) ==> AllOctets(ns) == AppTable(a, owner, generation, files)
  {
    hide Flatten, AllOctets, AllEncodable, IntOctets, Rows, List, Encodable, Body, KeyList, FileList, AuthMask, Mask, FilesOf;
    hide SetsSlots, SetsTable;
    var slots := AppSlots(a, owner, generation, files);
    var rows := [Row(0x80, Some(a.aid)), Row(0x81, MaybeX2(a.isoFid)), Row(0x82, MaybeX(a.dfName)), Row(0x83, X1(a.ks1)),
          Row(0x84, X1(a.ks2)), Row(0x85, U(Mask(a.auth, a.ks2, generation))),
          Row(0xA6, if a.store.Plain? then Some(List(0x30, KeyTables(a.store.keys))) else None),
          Row(0xA7, Some(List(0x30, FileTables(FilesOf(files, owner))))),
          Row(0xA8, if a.store.Plain? then None
                    else Some(SetsTable(NumKeys(a.store), a.store.maxSize, a.store.settings, a.store.sets))),
          Row(0x89, None), Row(0xAA, None), Row(0x8B, MaybeX1(a.smDisable)), Row(0x8C, MaybeU(a.preferred))];
    MaskOfRecord(a.auth, a.ks2, generation);
    FilesLaid(files, owner);
    if Encodable(Cons(0xA7, FileList(files, owner))) { ConsBody(0xA7, FileList(files, owner)); }
    if a.store.Plain? {
      KeysLaid(a.store.keys);
      if Encodable(Cons(0xA6, KeyList(a.store.keys))) { ConsBody(0xA6, KeyList(a.store.keys)); }
    } else {
      var s := a.store;
      var kids := Flatten(SetsSlots(NumKeys(s), s.maxSize, s.settings, s.sets));
      SetsLaid(NumKeys(s), s.maxSize, s.settings, s.sets);
      if Encodable(Cons(0xA8, kids)) { ConsBody(0xA8, kids); }
    }
    PrimBodies();
    assert FillAll(slots, rows);
    if AllEncodable(Flatten(slots)) { FilledRows(slots, rows); }
  }

  lemma AppsLaid(apps: seq<App>, generation: nat, files: seq<File>)
    requires AppsWritable(apps, files)
    ensures var ns := Listed(TAG_SEQUENCE, AppItems(apps, generation, files));
      AllEncodable(ns) ==> AllOctets(ns) == List(0x30, AppTables(apps, generation, files))
  {
    hide Flatten, AllOctets, AllEncodable, AppSlots, AppTable, Listed;
    var items := AppItems(apps, generation, files);
    forall i | 0 <= i < |apps|
      ensures AllEncodable(items[i]) ==> AllOctets(items[i]) == AppTables(apps, generation, files)[i]
    {
      AppLaid(apps[i], i, generation, files);
    }
    if AllEncodable(Listed(TAG_SEQUENCE, items)) { ListFills(items, AppTables(apps, generation, files)); }
  }

  /** Whatever the encoder produces is the documented layout of the credential. */
  lemma EncodingIsLaidOut(c: Credential)
    requires CredentialWritable(c) && Encodable(Cons(TAG_CREDENTIAL, Flatten(CredentialSlots(c))))
    ensures NodeOctets(Cons(TAG_CREDENTIAL, Flatten(CredentialSlots(c)))) == CredentialTable(c)
  {
    hide Flatten, AllOctets, AllEncodable, IntOctets, Rows, List, Encodable, Body, Listed, NodeOctets;
    hide CardSlots, PiccSlots, AppItems, CardTable, PiccTable, AppTables, Tlv, Laid;
    var slots, g := CredentialSlots(c), c.card.generation;
    var apps := Listed(TAG_SEQUENCE, AppItems(c.apps, g, c.files));
    var rows := [Row(0x80, U(6)), Row(0xA1, Some(CardTable(c.card))), Row(0xA2, Some(PiccTable(c.picc, g, c.files))),
                 Row(0xA3, Some(List(0x30, AppTables(c.apps, g, c.files))))];
    ConsBody(TAG_CREDENTIAL, Flatten(slots));
    NodeIsTlv(Cons(TAG_CREDENTIAL, Flatten(slots)));
    LaidIsTlv(TAG_CREDENTIAL, Body(Cons(TAG_CREDENTIAL, Flatten(slots))));
    CardLaid(c.card);
    PiccLaid(c.picc, g, c.files);
    AppsLaid(c.apps, g, c.files);
    if Encodable(slots[1].value) { ConsBody(0xA1, Flatten(CardSlots(c.card))); }
    if Encodable(slots[2].value) { ConsBody(0xA2, Flatten(PiccSlots(c.picc, g, c.files))); }
    if Encodable(slots[3].value) { ConsBody(0xA3, apps); }
    PrimBodies();
    assert FillAll(slots, rows);
    FilledRows(slots, rows);
  }
}
