/** The decoder: it reads each SEQUENCE against its declared order and builds the
    credential part by part. Components of optional features outside this model are
    refused as a build without those features refuses them. */
module DerDecoder {
  import opened Bytes
  import opened Limits
  import opened DerTlv
  import opened DerInteger
  import opened DerFields
  import opened DerSchema
  import opened DerWriter
  import opened DerEncoder

  /** A status that reports a failure. */
  type Fault = status: Status | status != Status.Ok witness Malformed

  datatype Result<+T> = Done(value: T) | Fail(status: Fault) {
    predicate IsFailure() { Fail? }

    function PropagateFailure<U>(): Result<U>
      requires Fail?
    {
      Fail(status)
    }

    function Extract(): T
      requires Done?
    {
      value
    }
  }

  function Require(ok: bool, status: Fault): Result<bool>
  {
    if ok then Done(true) else Fail(status)
  }

  // ---- Components -------------------------------------------------------------------------

  function Components(order: octets, body: octets): (r: Result<Record>)
    ensures r.Done? ==> |r.value| == |order|
  {
    match ReadFields(order, 0, body)
    case None => Fail(Malformed)
    case Some(record) => Done(record)
  }

  function Present(f: Option<octets>): Result<octets>
  {
    if f.Some? then Done(f.value) else Fail(Malformed)
  }

  function Integer(f: Option<octets>): Result<int>
  {
    if f.Some? && IntValue(f.value).Some? then Done(IntValue(f.value).value) else Fail(Malformed)
  }

  function Unsigned(f: Option<octets>, max: nat): (r: Result<nat>)
    ensures r.Done? ==> r.value <= max
  {
    var v :- Integer(f);
    if 0 <= v <= max then Done(v) else Fail(Malformed)
  }

  function Fixed(f: Option<octets>, n: nat): (r: Result<octets>)
    ensures r.Done? ==> |r.value| == n
  {
    if f.Some? && |f.value| == n then Done(f.value) else Fail(Malformed)
  }

  function One(f: Option<octets>): Result<byte>
  {
    var b :- Fixed(f, 1);
    Done(b[0])
  }

  function OptionalOne(f: Option<octets>): Result<Option<byte>>
  {
    if f.None? then Done(None)
    else
      var b :- One(f);
      Done(Some(b))
  }

  function OptionalFixed(f: Option<octets>, n: nat): Result<Option<octets>>
  {
    if f.None? then Done(None)
    else
      var b :- Fixed(f, n);
      Done(Some(b))
  }

  function Boolean(f: Option<octets>): Result<bool>
  {
    var b :- One(f);
    if b == 0x00 then Done(false) else if b == 0xFF then Done(true) else Fail(Malformed)
  }

  /** Absent means false, and false must be absent. */
  function DefaultFalse(f: Option<octets>): Result<bool>
  {
    if f.None? then Done(false)
    else
      var b :- Boolean(f);
      if b then Done(true) else Fail(Malformed)
  }

  function FileId(f: Option<octets>): Result<Option<nat>>
  {
    if f.None? then Done(None)
    else
      var b :- Fixed(f, 2);
      var v := b[0] as int * 256 + b[1];
      if Reserved(v) then Fail(Malformed) else Done(Some(v))
  }

  function Preferred(f: Option<octets>): Result<Option<byte>>
  {
    if f.None? then Done(None)
    else
      var v :- Unsigned(f, AUTH_ALL);
      Done(Some(v))
  }

  function Items(body: octets): Result<seq<octets>>
  {
    match ReadList(TAG_SEQUENCE, body)
    case None => Fail(Malformed)
    case Some(items) => Done(items)
  }

  // ---- Keys -------------------------------------------------------------------------------

  function DecodeKey(body: octets, slot: nat, length: nat): Result<Key>
  {
    var r :- Components(KEY_ORDER, body);
    var number :- Unsigned(r[0], MAX_KEYS - 1);
    var _ :- Require(number == slot, Malformed);
    var value :- Present(r[1]);
    var _ :- Require(|value| == length, Malformed);
    var version :- One(r[2]);
    Done(Key(value, version))
  }

  function DecodeKeyItems(items: seq<octets>, n: nat, length: nat): Result<seq<Key>>
    requires n <= |items|
    decreases |items| - n
  {
    if n == |items| then Done([])
    else
      var k :- DecodeKey(items[n], n, length);
      var rest :- DecodeKeyItems(items, n + 1, length);
      Done([k] + rest)
  }

  /** A list of keys, counted first so that its storage can be claimed. */
  function DecodeKeys(body: octets, length: nat, used: nat): Result<seq<Key>>
  {
    var items :- Items(body);
    var _ :- Require(|items| <= MAX_KEYS, Capacity);
    if items == [] then Done([])
    else
      var _ :- Require(used + |items| * Stride(length) <= KEY_POOL_SIZE, Capacity);
      DecodeKeyItems(items, 0, length)
  }

  function DecodeSetKeys(s: octets, slot: nat, count: nat, length: nat): Result<seq<Key>>
    decreases |s|
  {
    if s == [] then Done([])
    else match ParseTlv(s)
      case None => Fail(Malformed)
      case Some(e) =>
        var _ :- Require(e.tag == TAG_SEQUENCE && slot < count, Malformed);
        var k :- DecodeKey(e.body, slot, length);
        var rest :- DecodeSetKeys(e.rest, slot + 1, count, length);
        Done([k] + rest)
  }

  /** Slots the encoding does not mention keep the zeros the storage was given. */
  function FillKeys(keys: seq<Key>, count: nat, length: nat): seq<Key>
  {
    if |keys| >= count then keys else keys + seq(count - |keys|, i => Key(Zeros(length), 0))
  }

  function DecodeSet(body: octets, index: nat, count: nat, maxSize: nat): Result<KeySet>
  {
    var r :- Components(SET_ORDER, body);
    var number :- Unsigned(r[0], MAX_KEY_SETS - 1);
    var _ :- Require(number == index, Malformed);
    var kind :- Unsigned(r[2], 0xFF);
    var _ :- Require(kind <= 2 && SetKeyLength(kind) <= maxSize, Malformed);
    var version :- One(r[1]);
    var initialized :- Boolean(r[3]);
    var list :- Present(r[4]);
    var keys :- DecodeSetKeys(list, 0, count, SetKeyLength(kind));
    Done(KeySet(version, kind, initialized, FillKeys(keys, count, SetKeyLength(kind))))
  }

  function DecodeSetItems(items: seq<octets>, n: nat, count: nat, maxSize: nat): (r: Result<seq<KeySet>>)
    requires n <= |items|
    ensures r.Done? ==> |r.value| == |items| - n
    decreases |items| - n
  {
    if n == |items| then Done([])
    else
      var s :- DecodeSet(items[n], n, count, maxSize);
      var rest :- DecodeSetItems(items, n + 1, count, maxSize);
      Done([s] + rest)
  }

  function DecodeKeySets(body: octets, used: nat): Result<KeyStore>
  {
    var r :- Components(SETS_ORDER, body);
    var count :- Unsigned(r[0], MAX_KEYS);
    var _ :- Require(count > 0, Malformed);
    var maxSize :- Unsigned(r[1], 24);
    var _ :- Require(maxSize == 16 || maxSize == 24, Malformed);
    var settings :- One(r[2]);
    var list :- Present(r[3]);
    var items :- Items(list);
    var _ :- Require(|items| >= 2, Malformed);
    var _ :- Require(|items| <= MAX_KEY_SETS, Capacity);
    var _ :- Require(used + (|items| * count) * Stride(maxSize) <= KEY_POOL_SIZE, Capacity);
    var sets :- DecodeSetItems(items, 0, count, maxSize);
    var _ :- Require(sets[0].initialized, Malformed);
    Done(Sets(maxSize, settings, sets))
  }

  // ---- Files ------------------------------------------------------------------------------

  predicate FileFits(files: seq<File>, length: nat)
  {
    length <= MAX_FILE_DATA && TotalStored(files) + length <= FILE_POOL_SIZE
  }

  function DecodeData(body: octets, files: seq<File>): Result<Contents>
  {
    var r :- Components(DATA_ORDER, body);
    var size :- Unsigned(r[0], U24_MAX);
    var _ :- Require(size > 0, Malformed);
    var complete :- Boolean(r[2]);
    var known := if r[1].Some? then r[1].value else [];
    var _ :- Require(r[1].Some? ==> 0 < |known| <= size, Malformed);
    var _ :- Require(r[1].Some? ==> FileFits(files, |known|), Capacity);
    var _ :- Require(complete ==> |known| == size, Malformed);
    Done(Data(size, known, complete))
  }

  function DecodeValue(body: octets): Result<Contents>
  {
    var r :- Components(VALUE_ORDER, body);
    var lower :- Integer(r[0]);
    var upper :- Integer(r[1]);
    var current :- Integer(r[2]);
    var _ :- Require(lower >= -0x8000_0000 && upper < 0x8000_0000 && IsInt32(current), Malformed);
    var _ :- Require(lower <= current <= upper, Malformed);
    var limited :- One(r[3]);
    if r[4].None? then Done(Value(lower, upper, current, limited, 0))
    else
      var limit :- Integer(r[4]);
      var _ :- Require(0 <= limit < 0x8000_0000, Malformed);
      Done(Value(lower, upper, current, limited, limit))
  }

  predicate AllSized(items: seq<octets>, size: nat)
  {
    forall i :: 0 <= i < |items| ==> |items[i]| == size
  }

  function DecodeRecords(body: octets, kind: byte, files: seq<File>): Result<Contents>
  {
    var r :- Components(RECORD_ORDER, body);
    var size :- Unsigned(r[0], U24_MAX);
    var _ :- Require(size > 0, Malformed);
    var max :- Unsigned(r[1], U24_MAX);
    var _ :- Require(max > 0, Malformed);
    var count :- Unsigned(r[2], U24_MAX);
    var _ :- Require(count <= max, Malformed);
    var _ :- Require(kind == 4 ==> max >= 2, Malformed);
    var complete :- Boolean(r[3]);
    var list :- Present(r[4]);
    var stored := ReadList(TAG_OCTETS, list);
    var _ :- Require(stored.Some? && AllSized(stored.value, size) && |stored.value| <= count, Malformed);
    var _ :- Require(complete ==> |stored.value| == count, Malformed);
    var _ :- Require(stored.value != [] ==> FileFits(files, |stored.value| * size), Capacity);
    Done(Records(size, max, count, complete, stored.value))
  }

  predicate Taken(files: seq<File>, owner: nat, number: nat)
  {
    exists i :: 0 <= i < |files| && files[i].owner == owner && files[i].number as int == number
  }

  function Count(f: Option<octets>): nat
  {
    if f.Some? then 1 else 0
  }

  /** The type selects which contents must be there. */
  function DecodeContents(r: Record, kind: byte, files: seq<File>): Result<Contents>
    requires |r| == 10
  {
    var _ :- Require(Count(r[5]) + Count(r[6]) + Count(r[7]) + Count(r[8]) == 1, Malformed);
    if kind == 0 || kind == 1 then
      var body :- Present(r[5]);
      DecodeData(body, files)
    else if kind == 2 then
      var body :- Present(r[6]);
      DecodeValue(body)
    else if kind == 5 then
      var _ :- Present(r[8]);
      Fail(Unsupported)
    else
      var body :- Present(r[7]);
      DecodeRecords(body, kind, files)
  }

  function DecodeFile(body: octets, owner: nat, files: seq<File>): Result<File>
  {
    var r :- Components(FILE_ORDER, body);
    var number :- Unsigned(r[0], MAX_FILE_NUMBER);
    var kind :- Unsigned(r[1], 0xFF);
    var _ :- Require(kind <= 5, Malformed);
    var _ :- Require(|files| < MAX_FILES, Capacity);
    var _ :- Require(!Taken(files, owner, number), Malformed);
    var comm :- One(r[2]);
    var rights :- Fixed(r[3], 2);
    var isoFid :- FileId(r[4]);
    var contents :- DecodeContents(r, kind, files);
    var _ :- Require(r[9].None?, Unsupported);
    Done(File(owner, number, kind, comm, rights[0] as int * 256 + rights[1], isoFid, contents))
  }

  /** Adds the files of one owner to those already decoded. */
  function DecodeFiles(s: octets, owner: nat, files: seq<File>): Result<seq<File>>
    decreases |s|
  {
    if s == [] then Done(files)
    else match ParseTlv(s)
      case None => Fail(Malformed)
      case Some(e) =>
        var _ :- Require(e.tag == TAG_SEQUENCE, Malformed);
        var f :- DecodeFile(e.body, owner, files);
        DecodeFiles(e.rest, owner, files + [f])
  }

  lemma NoFilesLeft(owner: nat, files: seq<File>)
    ensures DecodeFiles([], owner, files) == Done(files)
  {
  }

  // ---- Applications -----------------------------------------------------------------------

  function DecodeStore(plain: Option<octets>, sets: Option<octets>, ks2: byte, used: nat): Result<KeyStore>
  {
    var _ :- Require(plain.Some? != sets.Some?, Malformed);
    if plain.Some? then
      var keys :- DecodeKeys(plain.value, KeyLength(ks2), used);
      Done(Plain(keys))
    else
      DecodeKeySets(sets.value, used)
  }

  function DecodeApp(r: Record, apps: seq<App>, used: nat): Result<App>
    requires |r| == 13
  {
    var aid :- Fixed(r[0], 3);
    var _ :- Require(forall i :: 0 <= i < |apps| ==> apps[i].aid != aid, Malformed);
    var isoFid :- FileId(r[1]);
    var dfName := if r[2].Some? then r[2].value else [];
    var _ :- Require(r[2].Some? ==> 0 < |dfName| <= 16, Malformed);
    var ks1 :- One(r[3]);
    var ks2 :- One(r[4]);
    var auth :- Unsigned(r[5], AUTH_ALL);
    var preferred :- Preferred(r[12]);
    var store :- DecodeStore(r[6], r[8], ks2, used);
    var _ :- Require(r[9].None? && r[10].None?, Unsupported);
    var smDisable :- OptionalOne(r[11]);
    Done(App(aid, isoFid, dfName, ks1, ks2, Some(auth), store, smDisable, preferred))
  }

  /** Applications with their files, one after the other. */
  function DecodeApps(s: octets, picc: Picc, apps: seq<App>, files: seq<File>): Result<(seq<App>, seq<File>)>
    decreases |s|
  {
    if s == [] then Done((apps, files))
    else match ParseTlv(s)
      case None => Fail(Malformed)
      case Some(e) =>
        var _ :- Require(e.tag == TAG_SEQUENCE, Malformed);
        var _ :- Require(|apps| < MAX_APPS, Capacity);
        var r :- Components(APP_ORDER, e.body);
        var app :- DecodeApp(r, apps, TotalKeyUse(picc, apps));
        var list :- Present(r[7]);
        var more :- DecodeFiles(list, |apps|, files);
        DecodeApps(e.rest, picc, apps + [app], more)
  }

  // ---- The credential ---------------------------------------------------------------------

  function DecodeCard(body: octets): Result<Card>
  {
    var r :- Components(CARD_ORDER, body);
    var generation :- Unsigned(r[0], 0xFF);
    var _ :- Require(1 <= generation <= 3, Malformed);
    var storage :- Unsigned(r[1], 0xFFFF_FFFF);
    var provenance :- Unsigned(r[3], 0xFF);
    var _ :- Require(provenance <= 2, Malformed);
    var uid :- Present(r[2]);
    var _ :- Require(|uid| == 4 || |uid| == 7 || |uid| == 10, Malformed);
    var hardware :- OptionalFixed(r[5], 7);
    var software :- OptionalFixed(r[6], 7);
    var _ :- Require(r[4].None?, Unsupported);
    Done(Card(generation, storage, uid, provenance, hardware, software))
  }

  function AnswerToSelect(f: Option<octets>): Result<octets>
  {
    if f.None? then Done([])
    else if f.value == [] then Fail(Malformed)
    else if |f.value| > ATS_MAX then Fail(Capacity)
    else Done(f.value)
  }

  /** Settings and flags of the PICC; the rest is as on a cleared credential. */
  function DecodePiccSettings(r: Record): (picc: Result<Picc>)
    requires |r| == 17
    ensures picc.Done? ==> picc.value == picc.value.(ats := [], sak := None, atqa := None, smDisable := None)
  {
    var ks1 :- One(r[0]);
    var ks2 :- One(r[1]);
    var auth :- Unsigned(r[2], AUTH_ALL);
    var preferred :- Preferred(r[15]);
    var randomId :- DefaultFalse(r[3]);
    var legacyId :- DefaultFalse(r[16]);
    var formatDisabled :- DefaultFalse(r[4]);
    Done(Picc(ks1, ks2, Some(auth), randomId, formatDisabled, [], None, None, None, [Key(Zeros(16), 0)], preferred, legacyId))
  }

  /** What identifies the PICC to a reader. */
  function DecodePiccIdentity(r: Record, picc: Picc): Result<Picc>
    requires |r| == 17
  {
    var ats :- AnswerToSelect(r[5]);
    var sak :- OptionalOne(r[6]);
    var atqa :- OptionalFixed(r[7], 2);
    var smDisable :- OptionalOne(r[8]);
    Done(picc.(ats := ats, sak := sak, atqa := atqa, smDisable := smDisable))
  }

  function DecodePiccKeys(r: Record, picc: Picc): Result<Picc>
    requires |r| == 17
  {
    var list :- Present(r[9]);
    var keys :- DecodeKeys(list, KeyLength(picc.ks2), 0);
    var _ :- Require(r[11].None? && r[12].None? && r[13].None? && r[14].None?, Unsupported);
    Done(picc.(keys := keys))
  }

  function DecodePicc(r: Record): Result<Picc>
    requires |r| == 17
  {
    var settings :- DecodePiccSettings(r);
    var identity :- DecodePiccIdentity(r, settings);
    DecodePiccKeys(r, identity)
  }

  function DecodeCredential(s: octets): Result<Credential>
  {
    var _ :- Require(|s| <= DER_MAX_SIZE, Malformed);
    match ParseTlv(s)
    case None => Fail(Malformed)
    case Some(root) =>
      var _ :- Require(root.tag == TAG_CREDENTIAL && root.rest == [], Malformed);
      var r :- Components(CREDENTIAL_ORDER, root.body);
      var version :- Unsigned(r[0], 0xFF);
      var _ :- Require(version == FORMAT_VERSION, Unsupported);
      var cardBody :- Present(r[1]);
      var card :- DecodeCard(cardBody);
      var piccBody :- Present(r[2]);
      var p :- Components(PICC_ORDER, piccBody);
      var picc :- DecodePicc(p);
      var appsBody :- Present(r[3]);
      var decoded :- DecodeApps(appsBody, picc, [], []);
      var filesBody :- Present(p[10]);
      var files :- DecodeFiles(filesBody, PICC_OWNER, decoded.1);
      var c := Credential(card, picc, decoded.0, files);
      var _ :- Require(Valid(c), Malformed);
      Done(c)
  }
}
