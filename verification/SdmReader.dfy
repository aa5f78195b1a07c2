/** The emulator's SDM read path, with the buffers it works in. */
module SdmReader {
  import opened Bytes
  import opened Limits
  import opened SdmRendering

  datatype Family = NativeFrames | NativeIsoDep | IsoRead

  datatype Status = Done | Failed | RandomExhausted

  class SdmFile {
    const number: byte
    const settings: Settings
    var data: Octets
    var counter: nat

    constructor (number: byte, settings: Settings, data: Octets)
      ensures this.number == number && this.settings == settings && this.data == data && counter == 0
    {
      this.number, this.settings, this.data, counter := number, settings, data, 0;
    }
  }

  /** What a read leaves behind besides the file's counter. */
  datatype Tags = Tags(valid: bool, number: byte, family: Family, length: nat)

  const NO_TAGS: Tags := Tags(false, 0, NativeFrames, 0)

  class Reader {
    const cache: array<byte>
    const chain: array<byte>
    var tags: Tags
    var chainLength: nat
    var chainOffset: nat
    var commandChain: bool

    ghost predicate Valid()
      reads this
    {
      && cache.Length == CACHE_SIZE && chain.Length == CHAIN_BUFFER_SIZE && cache != chain
      && tags.length <= CACHE_SIZE
    }

    constructor ()
      ensures Valid() && fresh(cache) && fresh(chain) && tags == NO_TAGS
      ensures !commandChain && chainLength == chainOffset == 0
    {
      cache := new byte[CACHE_SIZE](_ => 0);
      chain := new byte[CHAIN_BUFFER_SIZE](_ => 0);
      tags, chainLength, chainOffset, commandChain := NO_TAGS, 0, 0, false;
    }

    predicate Hit(file: SdmFile, family: Family)
      reads this
    {
      tags.valid && tags.number == file.number && tags.family == family
    }

    /** Renders into the cache, stepping the counter on the way. A failure may leave the
        cache and the counter changed; the second half of the chain buffer is safe. */
    method RenderInPlace(c: Card, file: SdmFile, family: Family, padding: Option<Octets>) returns (status: Status)
      requires Valid() && IsCard(c) && Padded(file.settings, c, padding)
      modifies this`tags, cache, chain, file`counter
      ensures chain[CACHE_SIZE..] == old(chain[CACHE_SIZE..]) && Valid()
      ensures NothingLeft(old(chain[..]), chain[..])
      ensures (status == RandomExhausted) == (!old(Hit(file, family)) && old(LacksRandom(c, file.settings, file.data, file.counter, padding)))
      ensures (status == Done) == (old(Hit(file, family)) || old(CanRender(c, file.settings, file.data, file.counter, padding)))
      ensures old(Hit(file, family)) ==> file.counter == old(file.counter) && tags == old(tags) && cache[..] == old(cache[..])
      ensures status == Done && !old(Hit(file, family)) ==>
        && file.counter == old(file.counter) + 1 && tags == Tags(true, file.number, family, |file.data|)
        && cache[..|file.data|] == View(c, file.settings, file.data, old(file.counter), padding)
    {
      hide Fits, PiccMirror, FileMirror, MacMirror, UidMirror, CounterMirror, Overwritten, IsCard;
      if Hit(file, family) { return Done; }
      var s, n := file.settings, |file.data|;
      if file.counter >= COUNTER_MAX || n > CACHE_SIZE || !Fits(s, n, c.uid) || n == 0 { return Failed; }
      if s.piccAt.Some? && padding.None? { return RandomExhausted; }
      var random := if padding.Some? then padding.value else [];
      Copy(cache, 0, file.data);
      assert cache[..n] == cache[0..n];
      file.counter := file.counter + 1;
      if !WithinLimit(s, file.counter) { return Failed; }
      if s.encryptedAt.Some? || HasMac(s) {
        var key := c.key(s.fileReadKey);
        if key.None? { return Failed; }
      }
      var done := WriteMirrors(c, s, file.counter, file.data, random, cache, chain);
      if !done { return Failed; }
      tags := Tags(true, file.number, family, n);
      return Done;
    }

    /** A read of the file: all or nothing. */
    method Render(c: Card, file: SdmFile, family: Family, padding: Option<Octets>) returns (status: Status)
      requires Valid() && IsCard(c) && Padded(file.settings, c, padding)
      modifies this`tags, cache, chain, file`counter
      ensures Valid()
      ensures NothingLeft(old(chain[..]), chain[..])
      ensures !old(Busy()) && !old(Hit(file, family)) ==> chain[CACHE_SIZE..2 * CACHE_SIZE] == Zeros(CACHE_SIZE)
      ensures chain[2 * CACHE_SIZE..] == old(chain[2 * CACHE_SIZE..])
      ensures old(Busy()) || old(Hit(file, family)) ==> chain[..] == old(chain[..])
      ensures commandChain || chainLength > chainOffset ==> status == Failed && chain[..] == old(chain[..])
      ensures (status == RandomExhausted) == (!old(Busy()) && !old(Hit(file, family)) &&
        old(LacksRandom(c, file.settings, file.data, file.counter, padding)))
      ensures (status == Done) == (!old(Busy()) &&
        (old(Hit(file, family)) || old(CanRender(c, file.settings, file.data, file.counter, padding))))
      ensures file.settings.limit.Some? && old(file.counter) >= file.settings.limit.value && !old(Hit(file, family)) ==>
        status != Done && (padding.Some? ==> status == Failed)
      ensures (file.data == [] || |file.data| > 192 || old(file.counter) >= 0xFFFFFF) && !old(Hit(file, family)) ==> status == Failed
      ensures status != Done || old(Hit(file, family)) ==>
        file.counter == old(file.counter) && tags == old(tags) && cache[..] == old(cache[..])
      ensures status == Done && !old(Hit(file, family)) ==>
        && file.counter == old(file.counter) + 1 && tags == Tags(true, file.number, family, |file.data|)
        && cache[..|file.data|] == View(c, file.settings, file.data, old(file.counter), padding)
    {
      hide LacksRandom, CanRender, View, Fits, IsCard, Padded;
      ReachedLimit(c, file.settings, file.data, file.counter, padding);
      if Busy() { return Failed; }
      if Hit(file, family) { return Done; }
      ghost var saved := cache[..];
      Copy(chain, CACHE_SIZE, cache[..]);
      assert chain[2 * CACHE_SIZE..] == old(chain[2 * CACHE_SIZE..]);
      assert chain[CACHE_SIZE..][..CACHE_SIZE] == chain[CACHE_SIZE..CACHE_SIZE + CACHE_SIZE];
      var savedCounter, savedTags := file.counter, tags;
      status := RenderInPlace(c, file, family, padding);
      if status != Done {
        assert chain[CACHE_SIZE..2 * CACHE_SIZE] == chain[CACHE_SIZE..][..CACHE_SIZE];
        Copy(cache, 0, chain[CACHE_SIZE..2 * CACHE_SIZE]);
        assert cache[..] == cache[0..CACHE_SIZE];
        file.counter, tags := savedCounter, savedTags;
      }
      ghost var left := chain[..];
      assert left[2 * CACHE_SIZE..] == chain[CACHE_SIZE..][CACHE_SIZE..];
      Wipe(chain, CACHE_SIZE, CACHE_SIZE);
      assert chain[2 * CACHE_SIZE..] == left[2 * CACHE_SIZE..];
      WipedOrKept(old(chain[..]), left, chain[..]);
    }

    /** A command or a response is still being transferred through the buffer. */
    predicate Busy()
      reads this
    {
      commandChain || chainLength > chainOffset
    }

    method Retire()
      requires Valid()
      modifies this`tags, cache
      ensures Valid() && tags == NO_TAGS && cache[..] == Zeros(CACHE_SIZE)
    {
      tags := NO_TAGS;
      Copy(cache, 0, Zeros(CACHE_SIZE));
      assert cache[..] == cache[0..CACHE_SIZE];
    }
  }

  /** Every octet is as it was or wiped. */
  predicate NothingLeft(was: Octets, now: Octets)
  {
    |was| == |now| && forall k :: 0 <= k < |now| ==> now[k] == was[k] || now[k] == 0
  }

  /** Octets that are zero or as they were stay so when the rollback copy is wiped. */
  lemma WipedOrKept(was: Octets, left: Octets, now: Octets)
    requires |was| == |left| == |now| == CHAIN_BUFFER_SIZE
    requires NothingLeft(was[..CACHE_SIZE], left[..CACHE_SIZE])
    requires now[..CACHE_SIZE] == left[..CACHE_SIZE] && now[CACHE_SIZE..2 * CACHE_SIZE] == Zeros(CACHE_SIZE)
    requires now[2 * CACHE_SIZE..] == was[2 * CACHE_SIZE..]
    ensures NothingLeft(was, now)
  {
    assert now == now[..CACHE_SIZE] + now[CACHE_SIZE..2 * CACHE_SIZE] + now[2 * CACHE_SIZE..];
    assert was == was[..CACHE_SIZE] + was[CACHE_SIZE..2 * CACHE_SIZE] + was[2 * CACHE_SIZE..];
  }

  predicate Padded(s: Settings, c: Card, padding: Option<Octets>)
  {
    s.piccAt.Some? && padding.Some? ==> |c.uid| <= 10 && |padding.value| == PaddingLength(s, c.uid)
  }

  /** Whether a read passes its first checks and then needs random octets it does not get. */
  predicate LacksRandom(c: Card, s: Settings, data: Octets, counter: nat, padding: Option<Octets>)
  {
    && counter < COUNTER_MAX && 0 < |data| <= CACHE_SIZE && Fits(s, |data|, c.uid)
    && s.piccAt.Some? && padding.None?
  }

  /** Whether a read that finds no matching cache can show the file. */
  ghost predicate CanRender(c: Card, s: Settings, data: Octets, counter: nat, padding: Option<Octets>)
    requires IsCard(c) && Padded(s, c, padding)
  {
    && counter < COUNTER_MAX && 0 < |data| <= CACHE_SIZE && Fits(s, |data|, c.uid)
    && (s.piccAt.Some? ==> padding.Some?)
    && Rendered(c, s, data, counter + 1, if padding.Some? then padding.value else []).Some?
  }

  /** A counter that has reached its limit renders nothing more. */
  lemma ReachedLimit(c: Card, s: Settings, data: Octets, counter: nat, padding: Option<Octets>)
    requires IsCard(c) && Padded(s, c, padding)
    ensures s.limit.Some? && counter >= s.limit.value ==> !CanRender(c, s, data, counter, padding)
    ensures padding.Some? ==> !LacksRandom(c, s, data, counter, padding)
    ensures data == [] || |data| > 192 || counter >= 0xFFFFFF ==>
      !CanRender(c, s, data, counter, padding) && !LacksRandom(c, s, data, counter, padding)
  {
    hide Fits, PiccMirror, FileMirror, MacMirror, UidMirror, CounterMirror, IsCard;
  }

  ghost function View(c: Card, s: Settings, data: Octets, counter: nat, padding: Option<Octets>): (v: Octets)
    requires IsCard(c) && Padded(s, c, padding) && CanRender(c, s, data, counter, padding)
    ensures |v| == |data|
  {
    Rendered(c, s, data, counter + 1, if padding.Some? then padding.value else []).value
  }

  // ---- Writing mirrors ------------------------------------------------------------------

  method Copy(a: array<byte>, at: nat, s: Octets)
    requires at + |s| <= a.Length
    modifies a
    ensures a[at..at + |s|] == s
    ensures a[..at] == old(a[..at]) && a[at + |s|..] == old(a[at + |s|..])
  {
    for i := 0 to |s|
      invariant forall k :: 0 <= k < a.Length ==> a[k] == if at <= k < at + i then s[k - at] else old(a[k])
    {
      a[at + i] := s[i];
    }
  }

  /** Writes `s` in hexadecimal inside the first `n` octets. */
  method WriteHex(a: array<byte>, n: nat, at: nat, s: Octets)
    requires at + 2 * |s| <= n <= a.Length
    modifies a
    ensures a[..n] == Overwritten(old(a[..n]), at, Hex(s))
  {
    hide Hex, Digit;
    for i := 0 to |s|
      invariant forall k :: 0 <= k < a.Length ==>
        a[k] == if at <= k < at + 2 * i then Hex(s)[k - at] else old(a[k])
    {
      HexAt(s, i);
      a[at + 2 * i] := Digit(s[i] / 16);
      a[at + 2 * i + 1] := Digit(s[i] % 16);
    }
  }

  method WriteText(c: Card, s: Settings, counter: nat, cache: array<byte>, n: nat)
    requires n <= cache.Length && Fits(s, n, c.uid) && counter <= COUNTER_MAX
    modifies cache
    ensures cache[..n] == CounterMirror(c, s, counter, UidMirror(c, s, old(cache[..n])))
  {
    hide Hex, Overwritten, HighFirst;
    if s.uidAt.Some? { WriteHex(cache, n, s.uidAt.value, if c.randomId then Zeros(|c.uid|) else c.uid); }
    if s.counterAt.Some? { WriteHex(cache, n, s.counterAt.value, HighFirst(counter)); }
  }

  method WritePicc(c: Card, s: Settings, counter: nat, padding: Octets, cache: array<byte>, n: nat) returns (ok: bool)
    requires IsCard(c) && n <= cache.Length && Fits(s, n, c.uid) && counter <= COUNTER_MAX
    requires s.piccAt.Some? ==> |padding| == PaddingLength(s, c.uid)
    modifies cache
    ensures ok == old(PiccMirror(c, s, counter, padding, cache[..n])).Some?
    ensures ok ==> cache[..n] == old(PiccMirror(c, s, counter, padding, cache[..n])).value
  {
    if s.piccAt.None? { return true; }
    var key := c.key(0);
    if key.None? { return false; }
    var e := c.encrypt(key.value, Zeros(BLOCK), PiccBlock(s, c.uid, counter, padding));
    if e.None? { return false; }
    WriteHex(cache, n, s.piccAt.value, e.value);
    return true;
  }

  /** Enciphers part of the file in the scratch half of the chain buffer, and wipes what it
      used of it. */
  method WriteFile(c: Card, s: Settings, counter: nat, data: Octets, cache: array<byte>, chain: array<byte>)
    returns (ok: bool)
    requires IsCard(c) && |data| <= cache.Length && Fits(s, |data|, c.uid) && counter <= COUNTER_MAX
    requires chain.Length == CHAIN_BUFFER_SIZE && chain != cache
    modifies cache, chain
    ensures ok == old(FileMirror(c, s, counter, data, cache[..|data|])).Some?
    ensures ok ==> cache[..|data|] == old(FileMirror(c, s, counter, data, cache[..|data|])).value
    ensures chain[CACHE_SIZE..] == old(chain[CACHE_SIZE..])
    ensures s.encryptedAt.Some? && SdmRendering.SessionKey(c, s, Encryption, counter).Some? ==>
      && chain[..s.encryptedLength / 2] == Zeros(s.encryptedLength / 2)
      && chain[s.encryptedLength / 2..] == old(chain[s.encryptedLength / 2..])
    ensures !(s.encryptedAt.Some? && SdmRendering.SessionKey(c, s, Encryption, counter).Some?) ==>
      chain[..] == old(chain[..])
  {
    hide Hex, Overwritten, LowFirst;
    if s.encryptedAt.None? { return true; }
    var key := SdmRendering.SessionKey(c, s, Encryption, counter);
    if key.None? { return false; }
    var size := s.encryptedLength / 2;
    Copy(chain, 0, Clear(s, data, c.uid));
    assert chain[..size] == chain[0..size];
    assert chain[CACHE_SIZE..] == chain[size..][CACHE_SIZE - size..] == old(chain[size..])[CACHE_SIZE - size..];
    var iv := c.encrypt(key.value, Zeros(BLOCK), LowFirst(counter) + Zeros(BLOCK - 3));
    if iv.Some? {
      var e := c.encrypt(key.value, iv.value, chain[..size]);
      if e.Some? {
        WriteHex(cache, |data|, s.encryptedAt.value, e.value);
        ok := true;
      } else {
        ok := false;
      }
    } else {
      ok := false;
    }
    Wipe(chain, 0, size);
    assert chain[..size] == chain[0..size];
    assert chain[CACHE_SIZE..] == chain[size..][CACHE_SIZE - size..];
  }

  method Wipe(a: array<byte>, at: nat, size: nat)
    requires at + size <= a.Length
    modifies a
    ensures a[at..at + size] == Zeros(size)
    ensures a[..at] == old(a[..at]) && a[at + size..] == old(a[at + size..])
  {
    Copy(a, at, Zeros(size));
  }

  method WriteMac(c: Card, s: Settings, counter: nat, cache: array<byte>, n: nat) returns (ok: bool)
    requires IsCard(c) && n <= cache.Length && Fits(s, n, c.uid)
    modifies cache
    ensures ok == old(MacMirror(c, s, counter, cache[..n])).Some?
    ensures ok ==> cache[..n] == old(MacMirror(c, s, counter, cache[..n])).value
  {
    if !HasMac(s) { return true; }
    var key := SdmRendering.SessionKey(c, s, Authentication, counter);
    if key.None? { return false; }
    var m := c.mac(key.value, cache[..n][s.macInputAt.value..s.macAt.value]);
    if m.None? { return false; }
    WriteHex(cache, n, s.macAt.value, Truncated(m.value));
    return true;
  }

  method WriteMirrors(c: Card, s: Settings, counter: nat, data: Octets, padding: Octets,
                      cache: array<byte>, chain: array<byte>) returns (ok: bool)
    requires IsCard(c) && |data| <= cache.Length && Fits(s, |data|, c.uid) && counter <= COUNTER_MAX
    requires s.piccAt.Some? ==> |padding| == PaddingLength(s, c.uid)
    requires chain.Length == CHAIN_BUFFER_SIZE && chain != cache && cache[..|data|] == data
    requires WithinLimit(s, counter) && (s.encryptedAt.Some? || HasMac(s) ==> c.key(s.fileReadKey).Some?)
    modifies cache, chain
    ensures ok == Rendered(c, s, data, counter, padding).Some?
    ensures ok ==> cache[..|data|] == Rendered(c, s, data, counter, padding).value
    ensures chain[CACHE_SIZE..] == old(chain[CACHE_SIZE..])
    ensures NothingLeft(old(chain[..]), chain[..])
  {
    hide Fits, UidMirror, CounterMirror, PiccMirror, FileMirror, MacMirror, IsCard;
    var n := |data|;
    WriteText(c, s, counter, cache, n);
    ok := WritePicc(c, s, counter, padding, cache, n);
    if !ok { return; }
    ok := WriteFile(c, s, counter, data, cache, chain);
    if !ok { return; }
    ok := WriteMac(c, s, counter, cache, n);
  }
}
