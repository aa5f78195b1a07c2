/** The decoder read backwards: the octets it accepts are the documented layout of what it
    makes of them, but for two spellings it tolerates. */
module DerCanonical {
  import opened Bytes
  import opened Limits
  import opened DerTlv
  import opened DerInteger
  import opened DerFields
  import opened DerSchema
  import opened DerWriter
  import opened DerEncoder
  import opened DerDecoder
  import opened DerNormalForm
  import opened DerRoundTrip
  import opened DerAccepted
  import opened DerLayout

  // ---- Fields ---------------------------------------------------------------------------------

  lemma IntegerField(f: Option<octets>)
    requires Integer(f).Done?
    ensures f == U(Integer(f).value)
  {
    hide Signed, Redundant, IntOctets;
    SignedInRange(f.value);
    BoundGrows(Signed(f.value), |f.value|, 8);
    BoundOfEight();
    IntegerCanonical(f.value, Signed(f.value));
  }

  lemma UnsignedField(f: Option<octets>, max: nat)
    requires Unsigned(f, max).Done?
    ensures f == U(Unsigned(f, max).value)
  {
    hide Integer, IntOctets;
    IntegerField(f);
  }

  lemma OneField(f: Option<octets>)
    requires One(f).Done?
    ensures f == X1(One(f).value)
  {
    assert f.value == [f.value[0]];
  }

  lemma BooleanField(f: Option<octets>)
    requires Boolean(f).Done?
    ensures f == B(Boolean(f).value)
  {
    OneField(f);
  }

  lemma DefaultFalseField(f: Option<octets>)
    requires DefaultFalse(f).Done?
    ensures f == Set(DefaultFalse(f).value)
  {
    if f.Some? { BooleanField(f); }
  }

  lemma PairField(f: Option<octets>)
    requires Fixed(f, 2).Done?
    ensures var b := Fixed(f, 2).value; var v := b[0] as int * 256 + b[1]; v < 65536 && f == X2(v)
  {
    var b := Fixed(f, 2).value;
    assert f.value == [b[0], b[1]];
    var v := b[0] as int * 256 + b[1];
    assert v / 256 == b[0] as int && v % 256 == b[1] as int;
  }

  lemma FileIdField(f: Option<octets>)
    requires FileId(f).Done?
    ensures FidOk(FileId(f).value) && f == MaybeX2(FileId(f).value)
  {
    if f.Some? { PairField(f); }
  }

  lemma PreferredField(f: Option<octets>)
    requires Preferred(f).Done?
    ensures f == MaybeU(Preferred(f).value)
  {
    hide Unsigned, IntOctets;
    if f.Some? { UnsignedField(f, AUTH_ALL); }
  }

  lemma OptionalOneField(f: Option<octets>)
    requires OptionalOne(f).Done?
    ensures f == MaybeX1(OptionalOne(f).value)
  {
    if f.Some? { OneField(f); }
  }

  // ---- Records and lists ------------------------------------------------------------------------

  lemma {:induction false} FieldsAsRows(order: octets, from: nat, r: Record, rows: seq<Row>)
    requires from + |r| == |order| && RecordOk(r) && |rows| == |r|
    requires forall i :: 0 <= i < |r| ==> rows[i] == Row(order[from + i], r[i])
    ensures FieldOctets(order, from, r) == Rows(rows)
    decreases |r|
  {
    hide Tlv, Laid;
    if r != [] {
      FieldsAsRows(order, from + 1, r[1..], rows[1..]);
      if r[0].Some? { LaidIsTlv(order[from], r[0].value); }
      assert rows[0] == Row(order[from], r[0]);
    }
  }

  /** A body that is read component by component consists of just those components. */
  lemma BodyIsRows(order: octets, body: octets, rows: seq<Row>)
    requires OrderOk(order) && Components(order, body).Done? && |rows| == |order|
    requires forall i :: 0 <= i < |rows| ==> rows[i] == Row(order[i], Components(order, body).value[i])
    ensures body == Rows(rows)
  {
    hide Rows, FieldOctets, ReadFields;
    var r := Components(order, body).value;
    FieldsCanonical(order, body, r);
    FieldsAsRows(order, 0, r, rows);
  }

  lemma {:induction false} ListCanonical(tag: byte, s: octets)
    requires ReadList(tag, s).Some?
    ensures s == List(tag, ReadList(tag, s).value)
    decreases |s|
  {
    hide ParseTlv, Tlv, Laid;
    if s != [] {
      ReadIsWritten(s);
      var e := ParseTlv(s).value;
      ParsedRest(s);
      ListCanonical(tag, e.rest);
      LaidIsTlv(tag, e.body);
      assert ReadList(tag, s).value[1..] == ReadList(tag, e.rest).value;
    }
  }

  // ---- Keys -------------------------------------------------------------------------------------

  lemma KeyBack(body: octets, slot: nat, length: nat)
    requires DecodeKey(body, slot, length).Done?
    ensures body == KeyTable(slot, DecodeKey(body, slot, length).value)
  {
    hide Components, Unsigned, One, Rows, IntOctets;
    OrdersOk();
    var r, k := Components(KEY_ORDER, body).value, DecodeKey(body, slot, length).value;
    UnsignedField(r[0], MAX_KEYS - 1);
    OneField(r[2]);
    BodyIsRows(KEY_ORDER, body, [Row(0x80, U(slot)), Row(0x81, Some(k.value)), Row(0x82, X1(k.version))]);
  }

  lemma {:induction false} KeyItemsBack(items: seq<octets>, n: nat, length: nat)
    requires n <= |items| && DecodeKeyItems(items, n, length).Done?
    ensures |DecodeKeyItems(items, n, length).value| == |items| - n
    ensures forall i :: n <= i < |items| ==> items[i] == KeyTable(i, DecodeKeyItems(items, n, length).value[i - n])
    decreases |items| - n
  {
    hide DecodeKey, KeyTable;
    if n < |items| {
      KeyBack(items[n], n, length);
      KeyItemsBack(items, n + 1, length);
    }
  }

  lemma KeysBack(body: octets, length: nat, used: nat)
    requires DecodeKeys(body, length, used).Done?
    ensures body == List(0x30, KeyTables(DecodeKeys(body, length, used).value))
  {
    hide ReadList, DecodeKeyItems, KeyTable, List;
    var items := Items(body).value;
    ListCanonical(TAG_SEQUENCE, body);
    if items != [] { KeyItemsBack(items, 0, length); }
    assert items == KeyTables(DecodeKeys(body, length, used).value);
  }

  lemma {:induction false} SetKeysBack(s: octets, slot: nat, count: nat, length: nat) returns (bodies: seq<octets>)
    requires DecodeSetKeys(s, slot, count, length).Done?
    ensures var keys := DecodeSetKeys(s, slot, count, length).value;
      && |bodies| == |keys| && s == List(0x30, bodies)
      && forall i :: 0 <= i < |keys| ==> bodies[i] == KeyTable(slot + i, keys[i])
    decreases |s|
  {
    hide DecodeKey, KeyTable, ParseTlv, Tlv, Laid;
    if s == [] {
      bodies := [];
    } else {
      ReadIsWritten(s);
      var e := ParseTlv(s).value;
      ParsedRest(s);
      KeyBack(e.body, slot, length);
      var rest := SetKeysBack(e.rest, slot + 1, count, length);
      bodies := [e.body] + rest;
      LaidIsTlv(TAG_SEQUENCE, e.body);
      assert bodies[1..] == rest;
    }
  }

  /** A set that lists all its keys is spelled as documented. */
  lemma SetBack(body: octets, index: nat, count: nat, maxSize: nat)
    requires DecodeSet(body, index, count, maxSize).Done?
    ensures var s := DecodeSet(body, index, count, maxSize).value; var r := Components(SET_ORDER, body);
      && r.Done? && r.value[4].Some? && DecodeSetKeys(r.value[4].value, 0, count, SetKeyLength(s.kind)).Done?
      && (|DecodeSetKeys(r.value[4].value, 0, count, SetKeyLength(s.kind)).value| == count ==> body == SetTable(index, s))
  {
    hide Components, Unsigned, One, Boolean, DecodeSetKeys, Rows, IntOctets, List, KeyTable;
    OrdersOk();
    var r, s := Components(SET_ORDER, body).value, DecodeSet(body, index, count, maxSize).value;
    var listed := DecodeSetKeys(r[4].value, 0, count, SetKeyLength(s.kind)).value;
    if |listed| == count {
      UnsignedField(r[0], MAX_KEY_SETS - 1);
      UnsignedField(r[2], 0xFF);
      OneField(r[1]);
      BooleanField(r[3]);
      var bodies := SetKeysBack(r[4].value, 0, count, SetKeyLength(s.kind));
      assert s.keys == listed && bodies == KeyTables(s.keys);
      BodyIsRows(SET_ORDER, body, [Row(0x80, U(index)), Row(0x81, X1(s.version)), Row(0x82, U(s.kind)),
                                   Row(0x83, B(s.initialized)), Row(0xA4, Some(List(0x30, KeyTables(s.keys))))]);
    }
  }

  // ---- Files ------------------------------------------------------------------------------------

  lemma DataBack(body: octets, files: seq<File>)
    requires DecodeData(body, files).Done?
    ensures body == ContentsTable(DecodeData(body, files).value)
  {
    hide Components, Unsigned, Boolean, Rows, IntOctets, FileFits;
    OrdersOk();
    var r, c := Components(DATA_ORDER, body).value, DecodeData(body, files).value;
    UnsignedField(r[0], U24_MAX);
    BooleanField(r[2]);
    BodyIsRows(DATA_ORDER, body, [Row(0x80, U(c.size)), Row(0x81, MaybeX(c.known)), Row(0x82, B(c.complete))]);
  }

  /** A limit of zero may be spelled out or left out; every other value file has one spelling. */
  lemma ValueBack(body: octets)
    requires DecodeValue(body).Done?
    ensures var c := DecodeValue(body).value;
      && (c.limit != 0 ==> body == ContentsTable(c))
      && (body == ContentsTable(c) || body == Rows([Row(0x80, U(c.lower)), Row(0x81, U(c.upper)), Row(0x82, U(c.current)),
                                                    Row(0x83, X1(c.limited)), Row(0x84, U(0))]))
  {
    hide Components, Integer, One, Rows, IntOctets;
    OrdersOk();
    var r, c := Components(VALUE_ORDER, body).value, DecodeValue(body).value;
    IntegerField(r[0]);
    IntegerField(r[1]);
    IntegerField(r[2]);
    OneField(r[3]);
    if r[4].Some? { IntegerField(r[4]); }
    BodyIsRows(VALUE_ORDER, body, [Row(0x80, U(c.lower)), Row(0x81, U(c.upper)), Row(0x82, U(c.current)), Row(0x83, X1(c.limited)),
                                   Row(0x84, if r[4].None? then None else U(c.limit))]);
  }

  lemma RowsRead(lower: int, upper: int, current: int, limited: byte, limit: Option<octets>)
    requires -0x8000_0000 <= lower <= current <= upper < 0x8000_0000 && (limit.Some? ==> |limit.value| <= 8)
    ensures var body := Rows([Row(0x80, U(lower)), Row(0x81, U(upper)), Row(0x82, U(current)), Row(0x83, X1(limited)), Row(0x84, limit)]);
      Components(VALUE_ORDER, body) == Done([U(lower), U(upper), U(current), X1(limited), limit])
  {
    hide Rows, FieldOctets, ReadFields, IntOctets;
    OrdersOk();
    IntOctetsCanonical(lower);
    IntOctetsCanonical(upper);
    IntOctetsCanonical(current);
    var rows := [Row(0x80, U(lower)), Row(0x81, U(upper)), Row(0x82, U(current)), Row(0x83, X1(limited)), Row(0x84, limit)];
    var r := [U(lower), U(upper), U(current), X1(limited), limit];
    FieldsAsRows(VALUE_ORDER, 0, r, rows);
    FieldsCanonical(VALUE_ORDER, Rows(rows), r);
  }

  /** Every value file with a limit of zero has two accepted spellings. */
  lemma ZeroLimitSpelledTwice(lower: int, upper: int, current: int, limited: byte)
    requires -0x8000_0000 <= lower <= current <= upper < 0x8000_0000
    ensures var front := [Row(0x80, U(lower)), Row(0x81, U(upper)), Row(0x82, U(current)), Row(0x83, X1(limited))];
      var bare, spelled := Rows(front + [Row(0x84, None)]), Rows(front + [Row(0x84, U(0))]);
      && bare != spelled && DecodeValue(bare) == DecodeValue(spelled) == Done(Value(lower, upper, current, limited, 0))
  {
    hide Components, Rows, IntOctets, Integer;
    IntOctetsCanonical(0);
    RowsRead(lower, upper, current, limited, None);
    RowsRead(lower, upper, current, limited, U(0));
    IntegerReads(lower);
    IntegerReads(upper);
    IntegerReads(current);
    IntegerReads(0);
    var front := [Row(0x80, U(lower)), Row(0x81, U(upper)), Row(0x82, U(current)), Row(0x83, X1(limited))];
    assert front + [Row(0x84, None)] == [Row(0x80, U(lower)), Row(0x81, U(upper)), Row(0x82, U(current)), Row(0x83, X1(limited)), Row(0x84, None)];
    assert front + [Row(0x84, U(0))] == [Row(0x80, U(lower)), Row(0x81, U(upper)), Row(0x82, U(current)), Row(0x83, X1(limited)), Row(0x84, U(0))];
  }

  lemma RecordsBack(body: octets, kind: byte, files: seq<File>)
    requires DecodeRecords(body, kind, files).Done?
    ensures body == ContentsTable(DecodeRecords(body, kind, files).value)
  {
    hide Components, Unsigned, Boolean, Rows, IntOctets, FileFits, ReadList, List;
    OrdersOk();
    var r, c := Components(RECORD_ORDER, body).value, DecodeRecords(body, kind, files).value;
    UnsignedField(r[0], U24_MAX);
    UnsignedField(r[1], U24_MAX);
    UnsignedField(r[2], U24_MAX);
    BooleanField(r[3]);
    ListCanonical(TAG_OCTETS, r[4].value);
    BodyIsRows(RECORD_ORDER, body, [Row(0x80, U(c.size)), Row(0x81, U(c.max)), Row(0x82, U(c.count)), Row(0x83, B(c.complete)),
                                    Row(0xA4, Some(List(0x04, c.stored)))]);
  }

  /** Not a value file whose limit is zero. */
  predicate OneSpelling(f: File)
  {
    f.contents.Value? ==> f.contents.limit != 0
  }

  lemma ContentsBack(r: Record, kind: byte, files: seq<File>)
    requires |r| == 10 && DecodeContents(r, kind, files).Done?
    ensures var c := DecodeContents(r, kind, files).value;
      (c.Value? ==> c.limit != 0) ==>
        && r[8].None?
        && r[5] == (if c.Data? then Some(ContentsTable(c)) else None)
        && r[6] == (if c.Value? then Some(ContentsTable(c)) else None)
        && r[7] == (if c.Records? then Some(ContentsTable(c)) else None)
  {
    hide DecodeData, DecodeValue, DecodeRecords, ContentsTable;
    if kind == 0 || kind == 1 {
      DataBack(r[5].value, files);
      DataLoadedKind(r[5].value, files);
    } else if kind == 2 {
      ValueBack(r[6].value);
      ValueLoadedKind(r[6].value);
    } else {
      RecordsBack(r[7].value, kind, files);
      RecordsLoadedKind(r[7].value, kind, files);
    }
  }

  lemma DataLoadedKind(body: octets, files: seq<File>)
    requires DecodeData(body, files).Done?
    ensures DecodeData(body, files).value.Data?
  {
  }

  lemma ValueLoadedKind(body: octets)
    requires DecodeValue(body).Done?
    ensures DecodeValue(body).value.Value?
  {
  }

  lemma RecordsLoadedKind(body: octets, kind: byte, files: seq<File>)
    requires DecodeRecords(body, kind, files).Done?
    ensures DecodeRecords(body, kind, files).value.Records?
  {
  }

  lemma FileBack(body: octets, owner: nat, files: seq<File>)
    requires DecodeFile(body, owner, files).Done?
    ensures var f := DecodeFile(body, owner, files).value; Writable(f) && (OneSpelling(f) ==> body == FileTable(f))
  {
    hide DecodeContents, Components, Unsigned, One, FileId, Fixed, Rows, IntOctets, Taken, DataTable, ValueTable, RecordTable, FidOk;
    FileOrderOk();
    var r, f := Components(FILE_ORDER, body).value, DecodeFile(body, owner, files).value;
    var c := f.contents;
    UnsignedField(r[0], MAX_FILE_NUMBER);
    UnsignedField(r[1], 0xFF);
    OneField(r[2]);
    PairField(r[3]);
    FileIdField(r[4]);
    ContentsBack(r, f.kind, files);
    if OneSpelling(f) {
      BodyIsRows(FILE_ORDER, body, [Row(0x80, U(f.number)), Row(0x81, U(f.kind)), Row(0x82, X1(f.comm)), Row(0x83, X2(f.rights)),
          Row(0x84, MaybeX2(f.isoFid)),
          Row(0xA5, if c.Data? then Some(DataTable(c.size, c.known, c.complete)) else None),
          Row(0xA6, if c.Value? then Some(ValueTable(c.lower, c.upper, c.current, c.limited, c.limit)) else None),
          Row(0xA7, if c.Records? then Some(RecordTable(c.size, c.max, c.count, c.complete, c.stored)) else None),
          Row(0xA8, None), Row(0xA9, None)]);
    }
  }

  ghost predicate AllOneSpelling(files: seq<File>)
  {
    forall i :: 0 <= i < |files| ==> OneSpelling(files[i])
  }

  lemma {:induction false} FilesBack(s: octets, owner: nat, files: seq<File>, own: seq<File>)
    requires DecodeFiles(s, owner, files) == Done(files + own)
    ensures AllWritable(own) && (AllOneSpelling(own) ==> s == List(0x30, FileTables(own)))
    decreases |s|
  {
    hide DecodeFile, ParseTlv, FileTable, OneSpelling, Writable, Tlv, Laid;
    if s == [] {
      assert own == [];
    } else {
      ReadIsWritten(s);
      ParsedRest(s);
      var e := ParseTlv(s).value;
      var f := DecodeFile(e.body, owner, files).value;
      FileBack(e.body, owner, files);
      var rest := FilesLoaded(e.rest, owner, files + [f]);
      assert files + own == (files + [f]) + rest;
      assert own == [f] + rest by { assert (files + own)[|files|..] == own && ((files + [f]) + rest)[|files|..] == [f] + rest; }
      FilesBack(e.rest, owner, files + [f], rest);
      LaidIsTlv(TAG_SEQUENCE, e.body);
      if AllOneSpelling(own) {
        assert AllOneSpelling(rest) by { assert forall i :: 0 <= i < |rest| ==> rest[i] == own[i + 1]; }
        assert OneSpelling(own[0]);
        assert FileTables(own)[0] == e.body && FileTables(own)[1..] == FileTables(rest);
      }
    }
  }

  // ---- The credential -----------------------------------------------------------------------------

  lemma CardBack(body: octets)
    requires DecodeCard(body).Done?
    ensures body == CardTable(DecodeCard(body).value)
  {
    hide Components, Unsigned, OptionalFixed, Rows, IntOctets;
    OrdersOk();
    var r, c := Components(CARD_ORDER, body).value, DecodeCard(body).value;
    UnsignedField(r[0], 0xFF);
    UnsignedField(r[1], 0xFFFF_FFFF);
    UnsignedField(r[3], 0xFF);
    OptionalFixedField(r[5], 7);
    OptionalFixedField(r[6], 7);
    BodyIsRows(CARD_ORDER, body, [Row(0x80, U(c.generation)), Row(0x81, U(c.storage)), Row(0x82, Some(c.uid)), Row(0x83, U(c.provenance)),
                                  Row(0x84, None), Row(0x85, c.hardware), Row(0x86, c.software)]);
  }

  lemma OptionalFixedField(f: Option<octets>, n: nat)
    requires OptionalFixed(f, n).Done?
    ensures f == OptionalFixed(f, n).value
  {
  }

  lemma AnswerToSelectField(f: Option<octets>)
    requires AnswerToSelect(f).Done?
    ensures f == MaybeX(AnswerToSelect(f).value)
  {
  }

  /** The rows are those of a record from place `from` on. */
  predicate RowsOf(order: octets, r: Record, from: nat, rows: seq<Row>)
    requires |order| == |r|
  {
    from + |rows| <= |order| && forall i :: 0 <= i < |rows| ==> rows[i] == Row(order[from + i], r[from + i])
  }

  lemma RowsJoin(order: octets, r: Record, a: seq<Row>, b: seq<Row>)
    requires |order| == |r| == |a| + |b| && RowsOf(order, r, 0, a) && RowsOf(order, r, |a|, b)
    ensures forall i :: 0 <= i < |r| ==> (a + b)[i] == Row(order[i], r[i])
  {
    forall i | 0 <= i < |r|
      ensures (a + b)[i] == Row(order[i], r[i])
    {
      if i >= |a| { assert (a + b)[i] == b[i - |a|] == Row(order[|a| + (i - |a|)], r[|a| + (i - |a|)]); }
    }
  }

  lemma PiccSettingsBack(r: Record, generation: nat)
    requires |r| == 17 && DecodePicc(r).Done?
    ensures |SettingsRows(DecodePicc(r).value, generation)| == 9
    ensures RowsOf(PICC_ORDER, r, 0, SettingsRows(DecodePicc(r).value, generation))
  {
    hide One, Unsigned, Preferred, DefaultFalse, AnswerToSelect, OptionalOne, OptionalFixed, DecodeKeys, IntOctets;
    OneField(r[0]);
    OneField(r[1]);
    UnsignedField(r[2], AUTH_ALL);
    DefaultFalseField(r[3]);
    DefaultFalseField(r[4]);
    AnswerToSelectField(r[5]);
    OptionalOneField(r[6]);
    OptionalFixedField(r[7], 2);
    OptionalOneField(r[8]);
  }

  lemma PiccRestBack(r: Record)
    requires |r| == 17 && DecodePicc(r).Done?
    ensures var p := DecodePicc(r).value;
      && r[9] == Some(List(0x30, KeyTables(p.keys))) && r[11].None? && r[12].None? && r[13].None? && r[14].None?
      && r[15] == MaybeU(p.preferred) && r[16] == Set(p.legacyId)
  {
    hide One, Unsigned, Preferred, DefaultFalse, AnswerToSelect, OptionalOne, OptionalFixed, DecodeKeys, IntOctets, List, KeyTable;
    var settings := DecodePiccSettings(r).value;
    KeysBack(r[9].value, KeyLength(settings.ks2), 0);
    PreferredField(r[15]);
    DefaultFalseField(r[16]);
  }

  lemma PiccContentsBack(r: Record, p: Picc, files: seq<File>)
    requires |r| == 17 && AllWritable(FilesOf(files, 255))
    requires r[9] == Some(List(0x30, KeyTables(p.keys))) && r[11].None? && r[12].None? && r[13].None? && r[14].None?
    requires r[10] == Some(List(0x30, FileTables(FilesOf(files, 255))))
    requires r[15] == MaybeU(p.preferred) && r[16] == Set(p.legacyId)
    ensures |ContentsRows(p, files)| == 8 && RowsOf(PICC_ORDER, r, 9, ContentsRows(p, files))
  {
    hide List, FilesOf, KeyTable, FileTable, MaybeU, Set;
  }

  lemma PiccBack(body: octets, files: seq<File>, own: seq<File>, before: seq<File>, generation: nat)
    requires Components(PICC_ORDER, body).Done? && DecodePicc(Components(PICC_ORDER, body).value).Done?
    requires var r := Components(PICC_ORDER, body).value; r[10].Some? && DecodeFiles(r[10].value, 255, before) == Done(before + own)
    requires FilesOf(files, 255) == own && AllOneSpelling(own)
    ensures AllWritable(own) && body == PiccTable(DecodePicc(Components(PICC_ORDER, body).value).value, generation, files)
  {
    hide Components, DecodePicc, DecodeFiles, SettingsRows, ContentsRows, Rows, List, FilesOf, RowsOf, KeyTable, FileTable, OrderOk;
    var r := Components(PICC_ORDER, body).value;
    var p := DecodePicc(r).value;
    PiccOrderOk();
    PiccSettingsBack(r, generation);
    FilesBack(r[10].value, 255, before, own);
    PiccRestBack(r);
    PiccContentsBack(r, p, files);
    RowsJoin(PICC_ORDER, r, SettingsRows(p, generation), ContentsRows(p, files));
    BodyIsRows(PICC_ORDER, body, SettingsRows(p, generation) + ContentsRows(p, files));
  }

  /** An application without key sets. */
  lemma AppBack(body: octets, apps: seq<App>, used: nat, before: seq<File>, own: seq<File>, files: seq<File>, generation: nat)
    requires Components(APP_ORDER, body).Done? && DecodeApp(Components(APP_ORDER, body).value, apps, used).Done?
    requires DecodeApp(Components(APP_ORDER, body).value, apps, used).value.store.Plain?
    requires var r := Components(APP_ORDER, body).value; r[7].Some? && DecodeFiles(r[7].value, |apps|, before) == Done(before + own)
    requires FilesOf(files, |apps|) == own && AllOneSpelling(own)
    ensures var a := DecodeApp(Components(APP_ORDER, body).value, apps, used).value;
      && AllWritable(own) && FidOk(a.isoFid) && body == AppTable(a, |apps|, generation, files)
  {
    hide Components, Fixed, FileId, One, Unsigned, Preferred, DecodeKeys, DecodeKeySets, OptionalOne, DecodeFiles;
    hide Rows, List, FilesOf, IntOctets, KeyTable, FileTable, FidOk, SetsTable;
    AppOrderOk();
    var r := Components(APP_ORDER, body).value;
    var a := DecodeApp(r, apps, used).value;
    FilesBack(r[7].value, |apps|, before, own);
    FixedField(r[0], 3);
    FileIdField(r[1]);
    OneField(r[3]);
    OneField(r[4]);
    UnsignedField(r[5], AUTH_ALL);
    PreferredField(r[12]);
    OptionalOneField(r[11]);
    PlainBack(r[6], r[8], a.ks2, used);
    BodyIsRows(APP_ORDER, body, [Row(0x80, Some(a.aid)), Row(0x81, MaybeX2(a.isoFid)), Row(0x82, MaybeX(a.dfName)), Row(0x83, X1(a.ks1)),
          Row(0x84, X1(a.ks2)), Row(0x85, U(Mask(a.auth, a.ks2, generation))),
          Row(0xA6, if a.store.Plain? then Some(List(0x30, KeyTables(a.store.keys))) else None),
          Row(0xA7, Some(List(0x30, FileTables(FilesOf(files, |apps|))))),
          Row(0xA8, None), Row(0x89, None), Row(0xAA, None), Row(0x8B, MaybeX1(a.smDisable)), Row(0x8C, MaybeU(a.preferred))]);
  }

  lemma FixedField(f: Option<octets>, n: nat)
    requires Fixed(f, n).Done?
    ensures f == Some(Fixed(f, n).value)
  {
  }

  lemma PlainBack(plain: Option<octets>, sets: Option<octets>, ks2: byte, used: nat)
    requires DecodeStore(plain, sets, ks2, used).Done? && DecodeStore(plain, sets, ks2, used).value.Plain?
    ensures plain == Some(List(0x30, KeyTables(DecodeStore(plain, sets, ks2, used).value.keys))) && sets == None
  {
    hide DecodeKeys, List, KeyTable;
    if plain.Some? {
      KeysBack(plain.value, KeyLength(ks2), used);
    } else {
      SetsStored(sets.value, used);
      assert false;
    }
  }

  lemma SetsStored(body: octets, used: nat)
    requires DecodeKeySets(body, used).Done?
    ensures DecodeKeySets(body, used).value.Sets?
  {
    hide Components, Unsigned, One, Items, DecodeSetItems;
  }

  // ---- Applications one after the other --------------------------------------------------------------

  predicate WritableFrom(apps: seq<App>, from: nat, files: seq<File>)
  {
    forall i :: from <= i < |apps| ==> FidOk(apps[i].isoFid) && AllWritable(FilesOf(files, i))
  }

  function TablesFrom(apps: seq<App>, from: nat, generation: nat, files: seq<File>): (t: seq<octets>)
    requires from <= |apps| && WritableFrom(apps, from, files)
    ensures |t| == |apps| - from
  {
    hide AppTable, FilesOf, FidOk, AllWritable;
    seq(|apps| - from, k requires 0 <= k < |apps| - from => AppTable(apps[from + k], from + k, generation, files))
  }

  predicate AllPlain(apps: seq<App>)
  {
    forall i :: 0 <= i < |apps| ==> apps[i].store.Plain?
  }

  /** Decoding applications adds applications, and files of those applications only. */
  lemma {:induction false} AppsGrow(s: octets, picc: Picc, apps: seq<App>, files: seq<File>) returns (later: seq<File>)
    requires DecodeApps(s, picc, apps, files).Done?
    ensures var d := DecodeApps(s, picc, apps, files).value; apps <= d.0 && d.1 == files + later
    ensures forall i :: 0 <= i < |later| ==> later[i].owner >= |apps|
    decreases |s|
  {
    hide DecodeFiles, DecodeApp, ParseTlv, Components, TotalKeyUse, AllLoaded;
    if s == [] {
      later := [];
    } else {
      var e := ParseTlv(s).value;
      var r := Components(APP_ORDER, e.body).value;
      var app := DecodeApp(r, apps, TotalKeyUse(picc, apps)).value;
      var own := FilesLoaded(r[7].value, |apps|, files);
      OwnersOf(own, |apps|);
      ParsedRest(s);
      var rest := AppsGrow(e.rest, picc, apps + [app], files + own);
      later := own + rest;
      assert (files + own) + rest == files + later;
    }
  }

  /** The files of one application are those decoded with it. */
  lemma OwnAmongAll(files: seq<File>, own: seq<File>, later: seq<File>, n: nat)
    requires forall i :: 0 <= i < |files| ==> files[i].owner < n
    requires forall i :: 0 <= i < |own| ==> own[i].owner == n
    requires forall i :: 0 <= i < |later| ==> later[i].owner > n
    ensures FilesOf((files + own) + later, n) == own
  {
    FilesOfAppend(files + own, later, n);
    FilesOfAppend(files, own, n);
    NotOwned(files, n);
    NotOwned(later, n);
    OneOwner(own, n, n);
  }

  lemma OwnersBelow(files: seq<File>, n: nat)
    requires InOrder(files, n)
    ensures forall i :: 0 <= i < |files| ==> files[i].owner < n
  {
  }

  lemma {:induction false} AppsBack(s: octets, picc: Picc, apps: seq<App>, files: seq<File>, all: seq<File>, generation: nat)
    requires DecodeApps(s, picc, apps, files).Done? && InOrder(files, |apps|)
    requires var d := DecodeApps(s, picc, apps, files).value;
      && AllPlain(d.0) && AllOneSpelling(d.1) && forall i :: 0 <= i < |d.0| ==> FilesOf(all, i) == FilesOf(d.1, i)
    ensures var d := DecodeApps(s, picc, apps, files).value;
      && |apps| <= |d.0| && WritableFrom(d.0, |apps|, all) && s == List(0x30, TablesFrom(d.0, |apps|, generation, all))
    decreases |s|
  {
    hide DecodeFiles, DecodeApp, ParseTlv, Components, TotalKeyUse, InOrder, AllLoaded, FilesOf, AppTable, Tlv, Laid, OneSpelling;
    var d := DecodeApps(s, picc, apps, files).value;
    var later := AppsGrow(s, picc, apps, files);
    if s != [] {
      var e := ParseTlv(s).value;
      var r := Components(APP_ORDER, e.body).value;
      var app := DecodeApp(r, apps, TotalKeyUse(picc, apps)).value;
      var own := FilesLoaded(r[7].value, |apps|, files);
      OwnersOf(own, |apps|);
      OwnersBelow(files, |apps|);
      ReadIsWritten(s);
      ParsedRest(s);
      NextInOrder(files, own, |apps|);
      var rest := AppsGrow(e.rest, picc, apps + [app], files + own);
      OwnAmongAll(files, own, rest, |apps|);
      assert AllOneSpelling(own) by { OwnSpellings(files, own, rest); }
      assert d.0[|apps|] == app;
      AppBack(e.body, apps, TotalKeyUse(picc, apps), files, own, all, generation);
      AppsBack(e.rest, picc, apps + [app], files + own, all, generation);
      LaidIsTlv(TAG_SEQUENCE, e.body);
      NextTable(d.0, |apps|, generation, all, e.body);
    }
  }

  lemma OwnSpellings(files: seq<File>, own: seq<File>, rest: seq<File>)
    requires AllOneSpelling((files + own) + rest)
    ensures AllOneSpelling(own)
  {
    hide OneSpelling;
    forall i | 0 <= i < |own|
      ensures OneSpelling(own[i])
    {
      assert own[i] == ((files + own) + rest)[|files| + i];
    }
  }

  lemma NextTable(apps: seq<App>, n: nat, generation: nat, files: seq<File>, body: octets)
    requires n < |apps| && WritableFrom(apps, n + 1, files) && FidOk(apps[n].isoFid) && AllWritable(FilesOf(files, n))
    requires body == AppTable(apps[n], n, generation, files)
    ensures WritableFrom(apps, n, files)
    ensures List(0x30, TablesFrom(apps, n, generation, files)) == Laid(0x30, body) + List(0x30, TablesFrom(apps, n + 1, generation, files))
  {
    hide AppTable, FilesOf, Laid, FidOk;
    assert TablesFrom(apps, n, generation, files)[1..] == TablesFrom(apps, n + 1, generation, files);
  }

  /** The decoder accepts a credential in its documented layout only, unless it has key sets,
      which may leave keys out, or a value file without a limit, which may say so. */
  lemma AcceptedIsLaidOut(s: octets)
    requires DecodeCredential(s).Done?
    requires var c := DecodeCredential(s).value; AllPlain(c.apps) && AllOneSpelling(c.files)
    ensures var c := DecodeCredential(s).value; CredentialWritable(c) && s == CredentialTable(c)
  {
    hide DecodeCard, DecodePicc, DecodeApps, DecodeFiles, ParseTlv, Components, Unsigned, Valid, InOrder, OneSpelling, FilesOf;
    hide Rows, List, CardTable, PiccTable, AppTable, IntOctets, Tlv, Laid, AllLoaded, OrderOk;
    var c, root := DecodeCredential(s).value, ParseTlv(s).value;
    var r := Components(CREDENTIAL_ORDER, root.body).value;
    var p := Components(PICC_ORDER, r[2].value).value;
    var picc, g := DecodePicc(p).value, c.card.generation;
    var decoded := DecodeApps(r[3].value, picc, [], []).value;
    NothingInOrder();
    AppsLoaded(r[3].value, picc, [], []);
    var own := FilesLoaded(p[10].value, PICC_OWNER, decoded.1);
    assert c.files == decoded.1 + own && c.apps == decoded.0 && c.picc == picc;
    SplitSpellings(decoded.1, own);
    FilesStay(decoded.1, own, |decoded.0|);
    ReadIsWritten(s);
    CardBack(r[1].value);
    PiccBack(r[2].value, c.files, own, decoded.1, g);
    AppsBack(r[3].value, picc, [], [], c.files, g);
    assert TablesFrom(c.apps, 0, g, c.files) == AppTables(c.apps, g, c.files);
    OrdersOk();
    UnsignedField(r[0], 0xFF);
    BodyIsRows(CREDENTIAL_ORDER, root.body,
               [Row(0x80, U(6)), Row(0xA1, Some(CardTable(c.card))), Row(0xA2, Some(PiccTable(c.picc, g, c.files))),
                Row(0xA3, Some(List(0x30, AppTables(c.apps, g, c.files))))]);
    LaidIsTlv(0x60, root.body);
  }

  lemma SplitSpellings(files: seq<File>, own: seq<File>)
    requires AllOneSpelling(files + own)
    ensures AllOneSpelling(files) && AllOneSpelling(own)
  {
    hide OneSpelling;
    forall i | 0 <= i < |files|
      ensures OneSpelling(files[i])
    {
      assert files[i] == (files + own)[i];
    }
    forall i | 0 <= i < |own|
      ensures OneSpelling(own[i])
    {
      assert own[i] == (files + own)[|files| + i];
    }
  }

  /** The PICC's files behind the applications' change no application's. */
  lemma FilesStay(files: seq<File>, own: seq<File>, n: nat)
    requires InOrder(files, n) && AllLoaded(own, PICC_OWNER) && n <= MAX_APPS
    ensures forall i :: 0 <= i < n ==> FilesOf(files + own, i) == FilesOf(files, i)
    ensures FilesOf(files + own, PICC_OWNER) == own
  {
    hide FilesOf, Loaded;
    OwnersOf(own, PICC_OWNER);
    OwnersBelow(files, n);
    forall i | 0 <= i < n
      ensures FilesOf(files + own, i) == FilesOf(files, i)
    {
      FilesOfAppend(files, own, i);
      OneOwner(own, PICC_OWNER, i);
    }
    FilesOfAppend(files, own, PICC_OWNER);
    NotOwned(files, PICC_OWNER);
    OneOwner(own, PICC_OWNER, PICC_OWNER);
  }
}
