/** The rules a stored credential has to meet, as its documentation gives them, against the
    model check that precedes every encoding and ends every decoding. */
module DerRules {
  import opened Bytes
  import opened Limits
  import opened DerTlv
  import opened DerSchema
  import opened DerLayout

  /** A command of the authentication mask is enabled. */
  predicate Has(mask: nat, command: nat)
    requires command > 0
  {
    (mask / command) % 2 == 1
  }

  /** D40 is for DES keys, ISO for DES and three-key TDEA, AES and the two EV2 commands for AES
      keys, the latter from the second generation on; ISO 7816 is for all. */
  predicate CommandsRule(auth: Option<byte>, preferred: Option<byte>, ks2: byte, generation: nat)
  {
    var mask, kind := Mask(auth, ks2, generation), ks2 / 64;
    && mask < 64
    && (Has(mask, 0x01) ==> kind != 1 && kind != 2)
    && (Has(mask, 0x02) ==> kind != 2)
    && (Has(mask, 0x04) ==> kind == 2)
    && (Has(mask, 0x08) || Has(mask, 0x10) ==> kind == 2 && generation >= 2)
    && (preferred.Some? ==> preferred.value in {0x01, 0x02, 0x04, 0x08, 0x10, 0x20} && Has(mask, preferred.value))
  }

  predicate FileIdRule(fid: Option<nat>)
  {
    fid.Some? ==> 0 < fid.value < 0xFFFF && fid.value != 0x3F00 && fid.value != 0x3FFF
  }

  predicate KeyRule(keys: seq<Key>, length: nat)
  {
    forall i :: 0 <= i < |keys| ==> |keys[i].value| == length
  }

  /** A key list may be empty; keys have the length of their type. */
  predicate PlainRule(keys: seq<Key>, ks2: byte)
  {
    |keys| <= 14 && (keys != [] ==> ks2 / 64 < 3) && KeyRule(keys, if ks2 / 64 == 1 then 24 else 16)
  }

  predicate SetRule(s: KeySet, count: nat, maxSize: nat)
  {
    s.kind <= 2 && (s.kind == 1 ==> maxSize == 24) && |s.keys| == count && KeyRule(s.keys, if s.kind == 1 then 24 else 16)
  }

  /** Two to sixteen sets of equally many keys; the first is initialised and of the
      application's type. */
  predicate SetsRule(maxSize: nat, sets: seq<KeySet>, ks2: byte, generation: nat)
  {
    && generation >= 2 && (maxSize == 16 || maxSize == 24) && 2 <= |sets| <= 16
    && 1 <= |sets[0].keys| <= 14 && sets[0].initialized && sets[0].kind as int == ks2 / 64
    && forall i :: 0 <= i < |sets| ==> SetRule(sets[i], |sets[0].keys|, maxSize)
  }

  predicate CardRule(c: Card)
  {
    && 1 <= c.generation <= 3 && c.storage < 0x1_0000_0000 && |c.uid| in {4, 7, 10} && c.provenance <= 2
    && (c.hardware.Some? ==> |c.hardware.value| == 7) && (c.software.Some? ==> |c.software.value| == 7)
  }

  predicate PiccRule(p: Picc, generation: nat)
  {
    && PlainRule(p.keys, p.ks2) && CommandsRule(p.auth, p.preferred, p.ks2, generation)
    && (p.legacyId ==> p.randomId) && |p.ats| <= 20
    && (p.atqa.Some? ==> |p.atqa.value| == 2) && (p.smDisable.Some? ==> p.smDisable.value <= 7)
  }

  predicate AppRule(a: App, generation: nat)
  {
    && |a.aid| == 3 && FileIdRule(a.isoFid) && |a.dfName| <= 16
    && (if a.store.Plain? then PlainRule(a.store.keys, a.ks2) else SetsRule(a.store.maxSize, a.store.sets, a.ks2, generation))
    && CommandsRule(a.auth, a.preferred, a.ks2, generation) && (a.smDisable.Some? ==> a.smDisable.value <= 7)
  }

  predicate DataRule(size: nat, known: octets, complete: bool)
  {
    1 <= size <= 0xFFFFFF && |known| <= size && (complete ==> |known| == size)
  }

  predicate ValueRule(lower: int, upper: int, current: int, limited: byte, limit: int)
  {
    && -0x8000_0000 <= lower <= current <= upper <= 0x7FFF_FFFF
    && limited <= 3 && 0 <= limit <= 0x7FFF_FFFF && (limited == 0 || limited == 2 ==> limit == 0)
  }

  /** Stored records are the written ones, or all that are reserved. */
  predicate RecordRule(kind: byte, size: nat, max: nat, count: nat, complete: bool, stored: seq<octets>)
  {
    && 1 <= size <= 0xFFFFFF && (if kind == 4 then 2 else 1) <= max <= 0xFFFFFF && count <= max
    && (forall i :: 0 <= i < |stored| ==> |stored[i]| == size)
    && (|stored| <= count || |stored| == max) && (complete ==> |stored| == count || |stored| == max)
  }

  /** A digit of access rights is free, denied or a key of the owner. */
  predicate DigitRule(digit: nat, keys: nat)
  {
    digit == 14 || digit == 15 || digit < keys
  }

  predicate RightsRule(rights: nat, keys: nat)
  {
    && rights < 0x10000 && DigitRule(rights / 0x1000, keys) && DigitRule((rights / 0x100) % 0x10, keys)
    && DigitRule((rights / 0x10) % 0x10, keys) && DigitRule(rights % 0x10, keys)
  }

  predicate FileRule(f: File, p: Picc, apps: seq<App>)
  {
    && (f.owner == 255 || f.owner < |apps|) && f.number <= 31 && f.comm % 128 <= 3 && FileIdRule(f.isoFid)
    && RightsRule(f.rights, if f.owner == 255 then |p.keys| else NumKeys(apps[f.owner].store))
    && var c := f.contents;
       if c.Data? then f.kind <= 1 && DataRule(c.size, c.known, c.complete)
       else if c.Value? then f.kind == 2 && ValueRule(c.lower, c.upper, c.current, c.limited, c.limit)
       else 3 <= f.kind <= 4 && RecordRule(f.kind, c.size, c.max, c.count, c.complete, c.stored)
  }

  /** Octets of the key pool the applications take. */
  function AppKeyRoom(apps: seq<App>): nat
  {
    if apps == [] then 0
    else
      var rest, a := AppKeyRoom(apps[..|apps| - 1]), apps[|apps| - 1];
      rest + if a.store.Plain? then |a.store.keys| * (if a.ks2 / 64 == 1 then 24 else 16)
             else (|a.store.sets| * NumKeys(a.store)) * (if a.store.maxSize == 24 then 24 else 16)
  }

  /** Octets of the file pool the files take. */
  function FileRoom(files: seq<File>): nat
  {
    if files == [] then 0
    else
      var rest, c := FileRoom(files[..|files| - 1]), files[|files| - 1].contents;
      rest + if c.Data? then |c.known| else if c.Records? then |c.stored| * c.size else 0
  }

  predicate CredentialRule(c: Credential)
  {
    && CardRule(c.card) && PiccRule(c.picc, c.card.generation) && |c.apps| <= 28 && |c.files| <= 32
    && (forall i :: 0 <= i < |c.apps| ==> AppRule(c.apps[i], c.card.generation))
    && (forall i, j :: 0 <= i < j < |c.apps| ==> c.apps[i].aid != c.apps[j].aid)
    && (forall i :: 0 <= i < |c.files| ==> FileRule(c.files[i], c.picc, c.apps))
    && (forall i, j :: 0 <= i < j < |c.files| ==> c.files[i].owner != c.files[j].owner || c.files[i].number != c.files[j].number)
    && |c.picc.keys| * (if c.picc.ks2 / 64 == 1 then 24 else 16) + AppKeyRoom(c.apps) <= 4096
    && FileRoom(c.files) <= 8192
  }

  // ---- The check is the rules ----------------------------------------------------------------

  lemma AllowedCommands(allowed: byte, mask: byte)
    requires mask < 64
    ensures Covers(allowed, mask) <==>
      && (Has(mask, 1) ==> Has(allowed, 1)) && (Has(mask, 2) ==> Has(allowed, 2)) && (Has(mask, 4) ==> Has(allowed, 4))
      && (Has(mask, 8) ==> Has(allowed, 8)) && (Has(mask, 16) ==> Has(allowed, 16)) && (Has(mask, 32) ==> Has(allowed, 32))
  {
    assert !Bit(mask, 64) && !Bit(mask, 128);
    forall w | w in {1, 2, 4, 8, 16, 32, 64, 128}
      ensures Bit(mask, w) == Has(mask, w) && Bit(allowed, w) == Has(allowed, w)
    {
    }
  }

  lemma CommandsChecked(auth: Option<byte>, preferred: Option<byte>, ks2: byte, generation: nat)
    ensures AuthOk(auth, preferred, ks2, generation) <==> CommandsRule(auth, preferred, ks2, generation)
  {
    hide Has, Bit, Covers, AuthMask, Mask;
    var mask, allowed := AuthMask(auth, ks2, generation), PossibleAuth(ks2, generation) + 32;
    MaskOfRecord(auth, ks2, generation);
    if mask < 64 { AllowedCommands(allowed, mask); }
    PossibleCommands(ks2, generation);
    SameBit(mask, 8);
    SameBit(mask, 16);
    if preferred.Some? && preferred.value > 0 { SameBit(mask, preferred.value); }
  }

  lemma SameBit(mask: byte, w: nat)
    requires w > 0
    ensures Bit(mask, w) == Has(mask, w)
  {
  }

  lemma PossibleCommands(ks2: byte, generation: nat)
    ensures var allowed, kind := PossibleAuth(ks2, generation) + 32, ks2 / 64;
      && Has(allowed, 0x01) == (kind != 1 && kind != 2) && Has(allowed, 0x02) == (kind != 2)
      && Has(allowed, 0x04) == (kind == 2) && Has(allowed, 0x20)
      && Has(allowed, 0x08) == Has(allowed, 0x10) == (kind == 2 && generation >= 2)
  {
  }

  lemma RightsChecked(rights: nat, keys: nat)
    ensures RightsOk(rights, keys) <==> RightsRule(rights, keys)
  {
  }

  lemma StoreChecked(s: KeyStore, ks2: byte, generation: nat)
    ensures StoreOk(s, ks2, generation) <==>
      if s.Plain? then PlainRule(s.keys, ks2) else SetsRule(s.maxSize, s.sets, ks2, generation)
  {
    if s.Sets? && s.sets != [] {
      forall i | 0 <= i < |s.sets|
        ensures s.maxSize == 16 || s.maxSize == 24 ==>
          (SetOk(s.sets[i], |s.sets[0].keys|, s.maxSize) <==> SetRule(s.sets[i], |s.sets[0].keys|, s.maxSize))
      {
      }
    }
  }

  lemma AppChecked(a: App, generation: nat)
    ensures AppOk(a, generation) <==> AppRule(a, generation)
  {
    hide AuthOk, CommandsRule, StoreOk, PlainRule, SetsRule;
    CommandsChecked(a.auth, a.preferred, a.ks2, generation);
    StoreChecked(a.store, a.ks2, generation);
  }

  lemma PiccChecked(p: Picc, generation: nat)
    ensures PiccOk(p, generation) <==> PiccRule(p, generation)
  {
    hide AuthOk, CommandsRule;
    CommandsChecked(p.auth, p.preferred, p.ks2, generation);
  }

  lemma FileChecked(f: File, p: Picc, apps: seq<App>)
    ensures FileOk(f, p, apps) <==> FileRule(f, p, apps)
  {
    hide RightsOk, RightsRule;
    if f.owner == 255 || f.owner < |apps| {
      RightsChecked(f.rights, if f.owner == 255 then |p.keys| else NumKeys(apps[f.owner].store));
    }
  }

  lemma {:induction false} KeyRoomCounted(apps: seq<App>)
    ensures AppsKeyUse(apps) == AppKeyRoom(apps)
  {
    if apps != [] { KeyRoomCounted(apps[..|apps| - 1]); }
  }

  lemma {:induction false} FileRoomCounted(files: seq<File>)
    ensures TotalStored(files) == FileRoom(files)
  {
    if files != [] { FileRoomCounted(files[..|files| - 1]); }
  }

  /** The model check accepts exactly the credentials that meet the documented rules. */
  lemma CheckedIsDocumented(c: Credential)
    ensures Valid(c) <==> CredentialRule(c)
  {
    hide PiccOk, PiccRule, AppOk, AppRule, FileOk, FileRule, AppsKeyUse, AppKeyRoom, TotalStored, FileRoom;
    PiccChecked(c.picc, c.card.generation);
    forall i | 0 <= i < |c.apps|
      ensures AppOk(c.apps[i], c.card.generation) <==> AppRule(c.apps[i], c.card.generation)
    {
      AppChecked(c.apps[i], c.card.generation);
    }
    forall i | 0 <= i < |c.files|
      ensures FileOk(c.files[i], c.picc, c.apps) <==> FileRule(c.files[i], c.picc, c.apps)
    {
      FileChecked(c.files[i], c.picc, c.apps);
    }
    KeyRoomCounted(c.apps);
    FileRoomCounted(c.files);
  }
}
