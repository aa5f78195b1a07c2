/** Secure dynamic messaging: reading a file renders its mirrors into a cache and steps
    its read counter, all or nothing. The rollback copy and the encryption scratch live
    in the same buffer, the response chain's. */
module SdmRendering {
  import opened Bytes

  type Octets = seq<byte>

  const CACHE_SIZE: nat := 192
  const COUNTER_MAX: nat := 0xFFFFFF
  const BLOCK: nat := 16
  const WIRE_MAC: nat := 8

  // ---- Text encodings -------------------------------------------------------------------

  function Digit(n: nat): byte
    requires n < 16
  {
    if n < 10 then 48 + n else 55 + n
  }

  function Hex(s: Octets): (h: Octets)
    ensures |h| == 2 * |s|
  {
    if s == [] then [] else [Digit(s[0] / 16), Digit(s[0] % 16)] + Hex(s[1..])
  }

  function Value(d: byte): nat
  {
    if d < 48 then 0 else if d < 58 then d - 48 else d - 55
  }

  /** What a verifier reads back. */
  function FromHex(h: Octets): Octets
  {
    if |h| < 2 then []
    else [Pair(h[0], h[1])] + FromHex(h[2..])
  }

  function Pair(high: byte, low: byte): byte
  {
    (16 * Value(high) + Value(low)) % 256
  }

  lemma DigitsPair(x: byte)
    ensures Pair(Digit(x / 16), Digit(x % 16)) == x
  {
    assert x == 16 * (x / 16) + x % 16;
  }

  lemma {:induction false} HexRoundTrip(s: Octets)
    ensures FromHex(Hex(s)) == s
  {
    hide Pair, Digit;
    if s != [] {
      HexRoundTrip(s[1..]);
      DigitsPair(s[0]);
      assert Hex(s)[2..] == Hex(s[1..]);
      assert s == [s[0]] + s[1..];
    }
  }

  lemma {:induction false} HexAt(s: Octets, i: nat)
    requires i < |s|
    ensures Hex(s)[2 * i] == Digit(s[i] / 16) && Hex(s)[2 * i + 1] == Digit(s[i] % 16)
  {
    if i > 0 {
      HexAt(s[1..], i - 1);
      assert Hex(s)[2 * i] == Hex(s[1..])[2 * (i - 1)];
    }
  }

  function LowFirst(counter: nat): (b: Octets)
    requires counter <= COUNTER_MAX
    ensures |b| == 3
  {
    [counter % 256, (counter / 256) % 256, counter / 65536]
  }

  function HighFirst(counter: nat): (b: Octets)
    requires counter <= COUNTER_MAX
    ensures |b| == 3
  {
    [counter / 65536, (counter / 256) % 256, counter % 256]
  }

  /** The number three octets give, the first one counting most. */
  function HighFirstValue(b: Octets): (n: nat)
    requires |b| == 3
  {
    var high: nat, middle: nat, low: nat := b[0], b[1], b[2];
    65536 * high + 256 * middle + low
  }

  lemma CounterRoundTrip(counter: nat)
    requires counter <= COUNTER_MAX
    ensures HighFirstValue(HighFirst(counter)) == counter
    ensures var b := LowFirst(counter); HighFirstValue([b[2], b[1], b[0]]) == counter
  {
    assert counter == 256 * (counter / 256) + counter % 256;
    assert counter / 256 == 256 * (counter / 65536) + (counter / 256) % 256;
  }

  // ---- Settings -------------------------------------------------------------------------

  datatype Settings = Settings(uidAt: Option<nat>, counterAt: Option<nat>, piccAt: Option<nat>,
                               macInputAt: Option<nat>, macAt: Option<nat>,
                               encryptedAt: Option<nat>, encryptedLength: nat, limit: Option<nat>,
                               mirrorsUid: bool, mirrorsCounter: bool, metaFree: bool, fileReadKey: nat)

  datatype Label = Encryption | Authentication

  /** The card around the file: keys, identity, and ciphers that may fail. */
  datatype Card = Card(uid: Octets, randomId: bool, key: nat -> Option<Octets>,
                       encrypt: (Octets, Octets, Octets) -> Option<Octets>,
                       derive: (Octets, Label, bool, bool, nat) -> Option<Octets>,
                       mac: (Octets, Octets) -> Option<Octets>)

  ghost predicate IsCard(c: Card)
  {
    && |c.uid| <= 10
    && (forall k, iv, d :: c.encrypt(k, iv, d).Some? ==> |c.encrypt(k, iv, d).value| == |d|)
    && (forall k, d :: c.mac(k, d).Some? ==> |c.mac(k, d).value| == BLOCK)
  }

  predicate RangeFits(size: nat, at: nat, length: nat)
  {
    at <= size && length <= size - at
  }

  function PiccLength(uid: Octets): nat
  {
    if |uid| == 10 then 2 * BLOCK else BLOCK
  }

  predicate HasMac(s: Settings)
  {
    s.macInputAt.Some? && s.macAt.Some?
  }

  /** Every mirror lies inside the file. */
  predicate Fits(s: Settings, size: nat, uid: Octets)
  {
    && (s.uidAt.Some? ==> RangeFits(size, s.uidAt.value, 2 * |uid|))
    && (s.counterAt.Some? ==> RangeFits(size, s.counterAt.value, 6))
    && (s.piccAt.Some? ==> RangeFits(size, s.piccAt.value, 2 * PiccLength(uid)))
    && (HasMac(s) ==> s.macAt.value >= s.macInputAt.value && RangeFits(size, s.macAt.value, 2 * WIRE_MAC))
    && (s.encryptedAt.Some? ==>
          && s.encryptedLength > 0 && s.encryptedLength % (2 * BLOCK) == 0
          && RangeFits(size, s.encryptedAt.value, s.encryptedLength)
          && s.encryptedLength / 2 <= CACHE_SIZE)
  }

  /** The mirrors fit a file of `size` octets exactly when each ends inside it, the code does
      not start before what it covers, and the enciphered part is whole blocks within the cache. */
  lemma FitsWithin(s: Settings, size: nat, uid: Octets)
    ensures Fits(s, size, uid) <==>
      && (s.uidAt.Some? ==> s.uidAt.value + 2 * |uid| <= size)
      && (s.counterAt.Some? ==> s.counterAt.value + 6 <= size)
      && (s.piccAt.Some? ==> s.piccAt.value + (if |uid| == 10 then 64 else 32) <= size)
      && (s.macInputAt.Some? && s.macAt.Some? ==> s.macInputAt.value <= s.macAt.value <= size - 16)
      && (s.encryptedAt.Some? ==>
            && s.encryptedLength in {32, 64, 96, 128, 160, 192, 224, 256, 288, 320, 352, 384}
            && s.encryptedAt.value + s.encryptedLength <= size)
  {
    if s.encryptedAt.Some? && s.encryptedLength % 32 == 0 {
      assert s.encryptedLength == 32 * (s.encryptedLength / 32);
    }
  }

  /** Random octets the PICC data block needs. */
  function PaddingLength(s: Settings, uid: Octets): (n: nat)
    requires |uid| <= 10
  {
    PiccLength(uid) - 1 - |uid| - (if s.mirrorsCounter then 3 else 0)
  }

  // ---- The rendered view ----------------------------------------------------------------

  function SessionKey(c: Card, s: Settings, purpose: Label, counter: nat): Option<Octets>
  {
    var key := c.key(s.fileReadKey);
    if key.None? then None
    else c.derive(key.value, purpose, s.mirrorsUid, s.mirrorsCounter && (!s.metaFree || s.counterAt.Some?), counter)
  }

  /** The tag of a PICC data block: whether a counter follows, and how long the identity is. */
  function Tag(counted: bool, n: nat): byte
    requires n <= 10
  {
    0x80 + (if counted then 0x40 else 0) + n
  }

  function TagLength(tag: byte): nat
  {
    tag % 16
  }

  predicate TagCounted(tag: byte)
  {
    (tag / 64) % 2 == 1
  }

  lemma TagRoundTrip(counted: bool, n: nat)
    requires n <= 10
    ensures TagLength(Tag(counted, n)) == n && TagCounted(Tag(counted, n)) == counted
  {
  }

  /** The PICC data block: a tag, the identity, the counter and random padding. */
  function PiccBlock(s: Settings, uid: Octets, counter: nat, padding: Octets): (b: Octets)
    requires |uid| <= 10 && counter <= COUNTER_MAX && |padding| == PaddingLength(s, uid)
    ensures |b| == PiccLength(uid)
  {
    var tag := Tag(s.mirrorsCounter, |uid|);
    if |uid| == 10 && !s.mirrorsCounter then [tag] + padding + uid
    else [tag] + uid + (if s.mirrorsCounter then LowFirst(counter) else []) + padding
  }

  function UidMirror(c: Card, s: Settings, v: Octets): (w: Octets)
    requires Fits(s, |v|, c.uid)
    ensures |w| == |v|
  {
    if s.uidAt.None? then v
    else Overwritten(v, s.uidAt.value, Hex(if c.randomId then Zeros(|c.uid|) else c.uid))
  }

  function CounterMirror(c: Card, s: Settings, counter: nat, v: Octets): (w: Octets)
    requires Fits(s, |v|, c.uid) && counter <= COUNTER_MAX
    ensures |w| == |v|
  {
    if s.counterAt.None? then v else Overwritten(v, s.counterAt.value, Hex(HighFirst(counter)))
  }

  ghost function PiccMirror(c: Card, s: Settings, counter: nat, padding: Octets, v: Octets): (w: Option<Octets>)
    requires IsCard(c) && Fits(s, |v|, c.uid) && counter <= COUNTER_MAX
    requires s.piccAt.Some? ==> |padding| == PaddingLength(s, c.uid)
    ensures w.Some? ==> |w.value| == |v|
  {
    if s.piccAt.None? then Some(v)
    else if c.key(0).None? then None
    else
      var e := c.encrypt(c.key(0).value, Zeros(BLOCK), PiccBlock(s, c.uid, counter, padding));
      if e.None? then None else Some(Overwritten(v, s.piccAt.value, Hex(e.value)))
  }

  function Clear(s: Settings, data: Octets, uid: Octets): (d: Octets)
    requires Fits(s, |data|, uid) && s.encryptedAt.Some?
    ensures 2 * |d| == s.encryptedLength
  {
    data[s.encryptedAt.value..s.encryptedAt.value + s.encryptedLength / 2]
  }

  ghost function FileMirror(c: Card, s: Settings, counter: nat, data: Octets, v: Octets): (w: Option<Octets>)
    requires IsCard(c) && Fits(s, |v|, c.uid) && |data| == |v| && counter <= COUNTER_MAX
    ensures w.Some? ==> |w.value| == |v|
  {
    if s.encryptedAt.None? then Some(v)
    else
      var key := SessionKey(c, s, Encryption, counter);
      if key.None? then None
      else
        var iv := c.encrypt(key.value, Zeros(BLOCK), LowFirst(counter) + Zeros(BLOCK - 3));
        if iv.None? then None
        else
          var e := c.encrypt(key.value, iv.value, Clear(s, data, c.uid));
          if e.None? then None else Some(Overwritten(v, s.encryptedAt.value, Hex(e.value)))
  }

  /** The octets of a code that travel: every other one. */
  function Truncated(full: Octets): (t: Octets)
    requires |full| == BLOCK
    ensures |t| == WIRE_MAC
  {
    seq(WIRE_MAC, i requires 0 <= i < WIRE_MAC => full[2 * i + 1])
  }

  ghost function MacMirror(c: Card, s: Settings, counter: nat, v: Octets): (w: Option<Octets>)
    requires IsCard(c) && Fits(s, |v|, c.uid)
    ensures w.Some? ==> |w.value| == |v|
  {
    if !HasMac(s) then Some(v)
    else
      var key := SessionKey(c, s, Authentication, counter);
      if key.None? then None
      else
        var m := c.mac(key.value, v[s.macInputAt.value..s.macAt.value]);
        if m.None? then None else Some(Overwritten(v, s.macAt.value, Hex(Truncated(m.value))))
  }

  predicate WithinLimit(s: Settings, counter: nat)
  {
    s.limit.Some? ==> counter <= s.limit.value
  }

  /** The view a read with this counter value shows. */
  ghost function Rendered(c: Card, s: Settings, data: Octets, counter: nat, padding: Octets): (w: Option<Octets>)
    requires IsCard(c) && Fits(s, |data|, c.uid) && counter <= COUNTER_MAX
    requires s.piccAt.Some? ==> |padding| == PaddingLength(s, c.uid)
    ensures w.Some? ==> |w.value| == |data|
  {
    if !WithinLimit(s, counter) then None
    else if (s.encryptedAt.Some? || HasMac(s)) && c.key(s.fileReadKey).None? then None
    else
      var v := CounterMirror(c, s, counter, UidMirror(c, s, data));
      var p := PiccMirror(c, s, counter, padding, v);
      if p.None? then None
      else
        var f := FileMirror(c, s, counter, data, p.value);
        if f.None? then None else MacMirror(c, s, counter, f.value)
  }

  /** The code in a rendered view covers exactly the view in front of it, so a verifier
      who recomputes it over what it received finds it. */
  lemma RenderedAuthenticates(c: Card, s: Settings, data: Octets, counter: nat, padding: Octets)
    requires IsCard(c) && Fits(s, |data|, c.uid) && counter <= COUNTER_MAX
    requires s.piccAt.Some? ==> |padding| == PaddingLength(s, c.uid)
    requires HasMac(s) && Rendered(c, s, data, counter, padding).Some?
    ensures SessionKey(c, s, Authentication, counter).Some? && c.key(s.fileReadKey).Some?
    ensures SessionKey(c, s, Authentication, counter)
         == c.derive(c.key(s.fileReadKey).value, Authentication, s.mirrorsUid,
                     s.mirrorsCounter && (!s.metaFree || s.counterAt.Some?), counter)
    ensures var v := Rendered(c, s, data, counter, padding).value;
            var m := c.mac(SessionKey(c, s, Authentication, counter).value, v[s.macInputAt.value..s.macAt.value]);
            && m.Some?
            && FromHex(v[s.macAt.value..s.macAt.value + 16])
               == [m.value[1], m.value[3], m.value[5], m.value[7], m.value[9], m.value[11], m.value[13], m.value[15]]
  {
    var v := CounterMirror(c, s, counter, UidMirror(c, s, data));
    var f := FileMirror(c, s, counter, data, PiccMirror(c, s, counter, padding, v).value).value;
    var w := Rendered(c, s, data, counter, padding).value;
    var key := SessionKey(c, s, Authentication, counter).value;
    var m := c.mac(key, f[s.macInputAt.value..s.macAt.value]).value;
    assert w == Overwritten(f, s.macAt.value, Hex(Truncated(m)));
    assert w[s.macInputAt.value..s.macAt.value] == w[..s.macAt.value][s.macInputAt.value..]
        == f[..s.macAt.value][s.macInputAt.value..] == f[s.macInputAt.value..s.macAt.value];
    HexRoundTrip(Truncated(m));
  }

  // ---- What a verifier reads back -------------------------------------------------------

  /** A range of a rendered view. */
  datatype Range = Range(at: nat, length: nat)

  predicate Apart(a: Range, b: Range)
  {
    a.at + a.length <= b.at || b.at + b.length <= a.at
  }

  function UidRange(s: Settings, uid: Octets): (r: Range)
    requires s.uidAt.Some?
  {
    Range(s.uidAt.value, 2 * |uid|)
  }

  function CounterRange(s: Settings): (r: Range)
    requires s.counterAt.Some?
  {
    Range(s.counterAt.value, 6)
  }

  function PiccRange(s: Settings, uid: Octets): (r: Range)
    requires s.piccAt.Some?
  {
    Range(s.piccAt.value, 2 * PiccLength(uid))
  }

  function FileRange(s: Settings): (r: Range)
    requires s.encryptedAt.Some?
  {
    Range(s.encryptedAt.value, s.encryptedLength)
  }

  function MacRange(s: Settings): (r: Range)
    requires s.macAt.Some?
  {
    Range(s.macAt.value, 2 * WIRE_MAC)
  }

  /** Neither the enciphered file part nor the code is written over the range. */
  predicate SafeFromFile(s: Settings, r: Range)
  {
    && (s.encryptedAt.Some? ==> Apart(r, FileRange(s)))
    && (HasMac(s) ==> Apart(r, MacRange(s)))
  }

  /** No mirror written after the counter is written over the range. */
  predicate SafeFromPicc(s: Settings, uid: Octets, r: Range)
  {
    (s.piccAt.Some? ==> Apart(r, PiccRange(s, uid))) && SafeFromFile(s, r)
  }

  function At(v: Octets, r: Range): Octets
    requires RangeFits(|v|, r.at, r.length)
  {
    v[r.at..r.at + r.length]
  }

  lemma WrittenStays(v: Octets, at: nat, h: Octets, r: Range)
    requires at + |h| <= |v| && RangeFits(|v|, r.at, r.length)
    ensures At(Overwritten(v, at, h), Range(at, |h|)) == h
    ensures Apart(r, Range(at, |h|)) ==> At(Overwritten(v, at, h), r) == At(v, r)
  {
  }

  lemma MacKeeps(c: Card, s: Settings, counter: nat, v: Octets, r: Range)
    requires IsCard(c) && Fits(s, |v|, c.uid) && MacMirror(c, s, counter, v).Some? && RangeFits(|v|, r.at, r.length)
    requires HasMac(s) ==> Apart(r, MacRange(s))
    ensures At(MacMirror(c, s, counter, v).value, r) == At(v, r)
  {
    hide Overwritten, Hex, Truncated, At;
    if HasMac(s) {
      var m := c.mac(SessionKey(c, s, Authentication, counter).value, v[s.macInputAt.value..s.macAt.value]).value;
      WrittenStays(v, s.macAt.value, Hex(Truncated(m)), r);
    }
  }

  lemma FileKeeps(c: Card, s: Settings, counter: nat, data: Octets, v: Octets, r: Range)
    requires IsCard(c) && Fits(s, |v|, c.uid) && |data| == |v| && counter <= COUNTER_MAX
    requires FileMirror(c, s, counter, data, v).Some? && RangeFits(|v|, r.at, r.length)
    requires s.encryptedAt.Some? ==> Apart(r, FileRange(s))
    ensures At(FileMirror(c, s, counter, data, v).value, r) == At(v, r)
  {
    hide Overwritten, Hex, At, LowFirst;
    if s.encryptedAt.Some? {
      var key := SessionKey(c, s, Encryption, counter).value;
      var iv := c.encrypt(key, Zeros(BLOCK), LowFirst(counter) + Zeros(BLOCK - 3)).value;
      WrittenStays(v, s.encryptedAt.value, Hex(c.encrypt(key, iv, Clear(s, data, c.uid)).value), r);
    }
  }

  lemma PiccKeeps(c: Card, s: Settings, counter: nat, padding: Octets, v: Octets, r: Range)
    requires IsCard(c) && Fits(s, |v|, c.uid) && counter <= COUNTER_MAX
    requires s.piccAt.Some? ==> |padding| == PaddingLength(s, c.uid)
    requires PiccMirror(c, s, counter, padding, v).Some? && RangeFits(|v|, r.at, r.length)
    requires s.piccAt.Some? ==> Apart(r, PiccRange(s, c.uid))
    ensures At(PiccMirror(c, s, counter, padding, v).value, r) == At(v, r)
  {
    hide Overwritten, Hex, At, PiccBlock, PaddingLength;
    if s.piccAt.Some? {
      var e := c.encrypt(c.key(0).value, Zeros(BLOCK), PiccBlock(s, c.uid, counter, padding)).value;
      WrittenStays(v, s.piccAt.value, Hex(e), r);
    }
  }

  /** A range no later mirror is written over keeps what the text mirrors put there. */
  lemma TextStays(c: Card, s: Settings, data: Octets, counter: nat, padding: Octets, r: Range)
    requires IsCard(c) && Fits(s, |data|, c.uid) && counter <= COUNTER_MAX
    requires s.piccAt.Some? ==> |padding| == PaddingLength(s, c.uid)
    requires Rendered(c, s, data, counter, padding).Some? && RangeFits(|data|, r.at, r.length)
    requires SafeFromPicc(s, c.uid, r)
    ensures At(Rendered(c, s, data, counter, padding).value, r)
         == At(CounterMirror(c, s, counter, UidMirror(c, s, data)), r)
  {
    hide At, IsCard, Fits, PiccMirror, FileMirror, MacMirror, UidMirror, CounterMirror, PaddingLength;
    var v := CounterMirror(c, s, counter, UidMirror(c, s, data));
    var p := PiccMirror(c, s, counter, padding, v).value;
    var f := FileMirror(c, s, counter, data, p).value;
    PiccKeeps(c, s, counter, padding, v, r);
    FileKeeps(c, s, counter, data, p, r);
    MacKeeps(c, s, counter, f, r);
  }

  /** The identity is read back from its mirror: as zeros on a card with a random one. */
  lemma UidReadsBack(c: Card, s: Settings, data: Octets, counter: nat, padding: Octets)
    requires IsCard(c) && Fits(s, |data|, c.uid) && counter <= COUNTER_MAX
    requires s.piccAt.Some? ==> |padding| == PaddingLength(s, c.uid)
    requires Rendered(c, s, data, counter, padding).Some? && s.uidAt.Some?
    requires SafeFromPicc(s, c.uid, UidRange(s, c.uid))
    requires s.counterAt.Some? ==> Apart(UidRange(s, c.uid), CounterRange(s))
    ensures FromHex(At(Rendered(c, s, data, counter, padding).value, UidRange(s, c.uid)))
         == if c.randomId then Zeros(|c.uid|) else c.uid
  {
    hide At, IsCard, Overwritten, Rendered, SafeFromPicc, Hex, FromHex, HighFirst, PaddingLength;
    var r, shown := UidRange(s, c.uid), if c.randomId then Zeros(|c.uid|) else c.uid;
    TextStays(c, s, data, counter, padding, r);
    WrittenStays(data, s.uidAt.value, Hex(shown), r);
    if s.counterAt.Some? {
      WrittenStays(UidMirror(c, s, data), s.counterAt.value, Hex(HighFirst(counter)), r);
    }
    HexRoundTrip(shown);
  }

  lemma CounterReadsBack(c: Card, s: Settings, data: Octets, counter: nat, padding: Octets)
    requires IsCard(c) && Fits(s, |data|, c.uid) && counter <= COUNTER_MAX
    requires s.piccAt.Some? ==> |padding| == PaddingLength(s, c.uid)
    requires Rendered(c, s, data, counter, padding).Some? && s.counterAt.Some?
    requires SafeFromPicc(s, c.uid, CounterRange(s))
    ensures var b := FromHex(At(Rendered(c, s, data, counter, padding).value, CounterRange(s)));
            |b| == 3 && HighFirstValue(b) == counter
  {
    hide At, IsCard, Overwritten, Rendered, SafeFromPicc, Hex, FromHex, PaddingLength, HighFirst, HighFirstValue;
    CounterRoundTrip(counter);
    TextStays(c, s, data, counter, padding, CounterRange(s));
    WrittenStays(UidMirror(c, s, data), s.counterAt.value, Hex(HighFirst(counter)), CounterRange(s));
    HexRoundTrip(HighFirst(counter));
  }

  /** What the tag of a PICC data block says is in it. */
  datatype PiccData = PiccData(uid: Octets, counter: Option<nat>)

  function ReadPicc(b: Octets): Option<PiccData>
  {
    if b == [] then None
    else
      var n, counted := TagLength(b[0]), TagCounted(b[0]);
      if |b| < 1 + n + 3 then None
      else if n == 10 && !counted then Some(PiccData(b[|b| - n..], None))
      else if !counted then Some(PiccData(b[1..1 + n], None))
      else Some(PiccData(b[1..1 + n], Some(HighFirstValue([b[3 + n], b[2 + n], b[1 + n]]))))
  }

  /** Identity and counter are read back from the block, whatever its padding. */
  lemma PiccRoundTrip(s: Settings, uid: Octets, counter: nat, padding: Octets)
    requires |uid| <= 10 && counter <= COUNTER_MAX && |padding| == PaddingLength(s, uid)
    ensures ReadPicc(PiccBlock(s, uid, counter, padding))
         == Some(PiccData(uid, if s.mirrorsCounter then Some(counter) else None))
    ensures var b := PiccBlock(s, uid, counter, padding);
      |b| == (if |uid| == 10 then 32 else 16) && b[0] == (if s.mirrorsCounter then 0xC0 else 0x80) + |uid|
  {
    assert Tag(s.mirrorsCounter, |uid|) == (if s.mirrorsCounter then 0xC0 else 0x80) + |uid|;
    hide LowFirst, HighFirstValue, Tag, TagLength, TagCounted;
    CounterRoundTrip(counter);
    TagRoundTrip(s.mirrorsCounter, |uid|);
    var b, n := PiccBlock(s, uid, counter, padding), |uid|;
    assert b[0] == Tag(s.mirrorsCounter, n);
    if n == 10 && !s.mirrorsCounter {
      assert b[|b| - n..] == uid;
    } else {
      assert b[1..1 + n] == uid;
      if s.mirrorsCounter {
        assert b[1 + n..4 + n] == LowFirst(counter);
        assert b[1 + n] == b[1 + n..4 + n][0] && b[2 + n] == b[1 + n..4 + n][1] && b[3 + n] == b[1 + n..4 + n][2];
      }
    }
  }

  /** A verifier that holds key 0 reads identity and counter from the PICC mirror. */
  lemma PiccReadsBack(c: Card, s: Settings, data: Octets, counter: nat, padding: Octets,
                      decrypt: (Octets, Octets, Octets) -> Octets)
    requires IsCard(c) && Fits(s, |data|, c.uid) && counter <= COUNTER_MAX
    requires s.piccAt.Some? && |padding| == PaddingLength(s, c.uid)
    requires Rendered(c, s, data, counter, padding).Some? && SafeFromFile(s, PiccRange(s, c.uid))
    requires forall k, iv, d :: c.encrypt(k, iv, d).Some? ==> decrypt(k, iv, c.encrypt(k, iv, d).value) == d
    ensures c.key(0).Some?
    ensures var b := FromHex(At(Rendered(c, s, data, counter, padding).value, PiccRange(s, c.uid)));
            var shown := PiccData(c.uid, if s.mirrorsCounter then Some(counter) else None);
            ReadPicc(decrypt(c.key(0).value, Zeros(BLOCK), b)) == Some(shown)
  {
    hide At, Overwritten, Hex, FromHex, ReadPicc, PiccBlock, PaddingLength, FileMirror, MacMirror, CounterMirror, UidMirror;
    var r := PiccRange(s, c.uid);
    var v := CounterMirror(c, s, counter, UidMirror(c, s, data));
    var p := PiccMirror(c, s, counter, padding, v).value;
    var e := c.encrypt(c.key(0).value, Zeros(BLOCK), PiccBlock(s, c.uid, counter, padding)).value;
    WrittenStays(v, s.piccAt.value, Hex(e), r);
    FileKeeps(c, s, counter, data, p, r);
    MacKeeps(c, s, counter, FileMirror(c, s, counter, data, p).value, r);
    HexRoundTrip(e);
    PiccRoundTrip(s, c.uid, counter, padding);
  }

  /** The clear octets of the enciphered part are read back by a verifier that derives
      the session key. */
  lemma FileReadsBack(c: Card, s: Settings, data: Octets, counter: nat, padding: Octets,
                      decrypt: (Octets, Octets, Octets) -> Octets)
    requires IsCard(c) && Fits(s, |data|, c.uid) && counter <= COUNTER_MAX
    requires s.piccAt.Some? ==> |padding| == PaddingLength(s, c.uid)
    requires Rendered(c, s, data, counter, padding).Some? && s.encryptedAt.Some?
    requires HasMac(s) ==> Apart(FileRange(s), MacRange(s))
    requires forall k, iv, d :: c.encrypt(k, iv, d).Some? ==> decrypt(k, iv, c.encrypt(k, iv, d).value) == d
    ensures SessionKey(c, s, Encryption, counter).Some? && c.key(s.fileReadKey).Some?
    ensures SessionKey(c, s, Encryption, counter)
         == c.derive(c.key(s.fileReadKey).value, Encryption, s.mirrorsUid,
                     s.mirrorsCounter && (!s.metaFree || s.counterAt.Some?), counter)
    ensures var key := SessionKey(c, s, Encryption, counter).value;
            var iv := c.encrypt(key, Zeros(BLOCK), LowFirst(counter) + Zeros(BLOCK - 3));
            var b := FromHex(At(Rendered(c, s, data, counter, padding).value, FileRange(s)));
            iv.Some? && decrypt(key, iv.value, b) == data[s.encryptedAt.value..s.encryptedAt.value + s.encryptedLength / 2]
  {
    hide At, Overwritten, Hex, FromHex, PiccMirror, MacMirror, CounterMirror, UidMirror, LowFirst, PaddingLength;
    var v := CounterMirror(c, s, counter, UidMirror(c, s, data));
    var p := PiccMirror(c, s, counter, padding, v).value;
    var key := SessionKey(c, s, Encryption, counter).value;
    var iv := c.encrypt(key, Zeros(BLOCK), LowFirst(counter) + Zeros(BLOCK - 3)).value;
    var e := c.encrypt(key, iv, Clear(s, data, c.uid)).value;
    WrittenStays(p, s.encryptedAt.value, Hex(e), FileRange(s));
    MacKeeps(c, s, counter, FileMirror(c, s, counter, data, p).value, FileRange(s));
    HexRoundTrip(e);
  }
}
