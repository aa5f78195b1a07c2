/** The decoder's loops over the octets, and the credential object they fill. */
module DerReader {
  import opened Bytes
  import opened Limits
  import opened DerTlv
  import opened DerWriter
  import opened DerFields
  import opened DerSchema
  import opened DerEncoder
  import opened DerDecoder
  import opened DerNormalForm
  import opened DerRoundTrip
  import opened DerAccepted

  /** One step of decoding files. */
  lemma FilesUnfold(s: octets, owner: nat, files: seq<File>)
    requires s != []
    ensures ParseTlv(s).None? || ParseTlv(s).value.tag != TAG_SEQUENCE ==> DecodeFiles(s, owner, files) == Fail(Malformed)
    ensures ParseTlv(s).Some? && ParseTlv(s).value.tag == TAG_SEQUENCE ==>
      var e := ParseTlv(s).value; var f := DecodeFile(e.body, owner, files);
      DecodeFiles(s, owner, files) == if f.Fail? then Fail(f.status) else DecodeFiles(e.rest, owner, files + [f.value])
  {
    hide DecodeFile, ParseTlv;
  }

  lemma NoMoreApps(picc: Picc, apps: seq<App>, files: seq<File>)
    ensures DecodeApps([], picc, apps, files) == Done((apps, files))
  {
  }

  /** One step of decoding applications. */
  lemma AppsUnfold(s: octets, picc: Picc, apps: seq<App>, files: seq<File>)
    requires s != []
    ensures ParseTlv(s).None? || ParseTlv(s).value.tag != TAG_SEQUENCE ==> DecodeApps(s, picc, apps, files) == Fail(Malformed)
    ensures ParseTlv(s).Some? && ParseTlv(s).value.tag == TAG_SEQUENCE ==>
      DecodeApps(s, picc, apps, files) == NextApp(ParseTlv(s).value, picc, apps, files)
  {
    hide DecodeApp, ReadFields, TotalKeyUse, DecodeFiles, ParseTlv;
  }

  function NextApp(e: Element, picc: Picc, apps: seq<App>, files: seq<File>): Result<(seq<App>, seq<File>)>
  {
    if |apps| >= MAX_APPS then Fail(Capacity)
    else
      var r := Components(APP_ORDER, e.body);
      if r.Fail? then Fail(r.status)
      else
        var app := DecodeApp(r.value, apps, TotalKeyUse(picc, apps));
        if app.Fail? then Fail(app.status)
        else if r.value[7].None? then Fail(Malformed)
        else
          var more := DecodeFiles(r.value[7].value, |apps|, files);
          if more.Fail? then Fail(more.status) else DecodeApps(e.rest, picc, apps + [app.value], more.value)
  }

  /** A cleared credential: an EV1 card with one factory-default master key. */
  const CLEARED: Credential :=
    Credential(Card(1, 2048, [], 0, None, None),
               Picc(0x0F, 0x01, None, false, false, [], None, None, None, [Key(Zeros(16), 0)], None, false), [], [])

  /** The credential a decoder fills. Optional parts are written only when they are
      present, so whatever was there before has to be cleared away first. */
  class Store {
    var card: Card
    var picc: Picc
    var apps: seq<App>
    var files: seq<File>

    function Contents(): Credential
      reads this
    {
      Credential(card, picc, apps, files)
    }

    constructor ()
      ensures Contents() == CLEARED
    {
      card, picc, apps, files := CLEARED.card, CLEARED.picc, [], [];
    }

    method Clear()
      modifies this
      ensures Contents() == CLEARED
    {
      card, picc, apps, files := CLEARED.card, CLEARED.picc, [], [];
    }

    method FillCard(body: octets) returns (status: Status)
      requires card == CLEARED.card
      modifies this`card
      ensures status == Status.Ok ==> DecodeCard(body) == Done(card)
      ensures status != Status.Ok ==> DecodeCard(body) == Fail(status)
    {
      hide Unsigned, Components;
      var fields := Components(CARD_ORDER, body);
      if fields.Fail? { return fields.status; }
      var r := fields.value;
      var generation := Unsigned(r[0], 0xFF);
      if generation.Fail? { return generation.status; }
      if generation.value < 1 || generation.value > 3 { return Malformed; }
      var storage := Unsigned(r[1], 0xFFFF_FFFF);
      if storage.Fail? { return storage.status; }
      var provenance := Unsigned(r[3], 0xFF);
      if provenance.Fail? { return provenance.status; }
      if provenance.value > 2 { return Malformed; }
      if r[2].None? { return Malformed; }
      if |r[2].value| != 4 && |r[2].value| != 7 && |r[2].value| != 10 { return Malformed; }
      card := card.(uid := r[2].value);
      card := card.(generation := generation.value, storage := storage.value, provenance := provenance.value);
      if r[5].Some? {
        if |r[5].value| != 7 { return Malformed; }
        card := card.(hardware := r[5]);
      }
      if r[6].Some? {
        if |r[6].value| != 7 { return Malformed; }
        card := card.(software := r[6]);
      }
      if r[4].Some? { return Unsupported; }
      return Status.Ok;
    }

    /** The settings of the PICC, up to its identification. */
    method FillPiccSettings(r: Record) returns (status: Status)
      requires picc == CLEARED.picc && |r| == 17
      modifies this`picc
      ensures status == Status.Ok ==> DecodePiccSettings(r) == Done(picc)
      ensures status != Status.Ok ==> DecodePiccSettings(r) == Fail(status)
    {
      hide Unsigned, Boolean;
      var ks1 := One(r[0]);
      if ks1.Fail? { return ks1.status; }
      picc := picc.(ks1 := ks1.value);
      var ks2 := One(r[1]);
      if ks2.Fail? { return ks2.status; }
      picc := picc.(ks2 := ks2.value);
      var auth := Unsigned(r[2], AUTH_ALL);
      if auth.Fail? { return auth.status; }
      picc := picc.(auth := Some(auth.value));
      if r[15].Some? {
        var preferred := Unsigned(r[15], AUTH_ALL);
        if preferred.Fail? { return preferred.status; }
        picc := picc.(preferred := Some(preferred.value));
      }
      var randomId := DefaultFalse(r[3]);
      if randomId.Fail? { return randomId.status; }
      picc := picc.(randomId := randomId.value);
      var legacyId := DefaultFalse(r[16]);
      if legacyId.Fail? { return legacyId.status; }
      picc := picc.(legacyId := legacyId.value);
      var formatDisabled := DefaultFalse(r[4]);
      if formatDisabled.Fail? { return formatDisabled.status; }
      picc := picc.(formatDisabled := formatDisabled.value);
      return Status.Ok;
    }

    method FillPiccIdentity(r: Record) returns (status: Status)
      requires |r| == 17 && picc == picc.(ats := [], sak := None, atqa := None, smDisable := None)
      modifies this`picc
      ensures status == Status.Ok ==> DecodePiccIdentity(r, old(picc)) == Done(picc)
      ensures status != Status.Ok ==> DecodePiccIdentity(r, old(picc)) == Fail(status)
    {
      hide OptionalOne, OptionalFixed;
      if r[5].Some? {
        if r[5].value == [] { return Malformed; }
        if |r[5].value| > ATS_MAX { return Capacity; }
        picc := picc.(ats := r[5].value);
      }
      var sak := OptionalOne(r[6]);
      if sak.Fail? { return sak.status; }
      if sak.value.Some? { picc := picc.(sak := sak.value); }
      var atqa := OptionalFixed(r[7], 2);
      if atqa.Fail? { return atqa.status; }
      if atqa.value.Some? { picc := picc.(atqa := atqa.value); }
      var smDisable := OptionalOne(r[8]);
      if smDisable.Fail? { return smDisable.status; }
      if smDisable.value.Some? { picc := picc.(smDisable := smDisable.value); }
      return Status.Ok;
    }

    /** The PICC's keys. The key a cleared credential starts with goes, even for an empty
        list. */
    method FillPiccKeys(r: Record) returns (status: Status)
      requires |r| == 17
      modifies this`picc
      ensures status == Status.Ok ==> DecodePiccKeys(r, old(picc)) == Done(picc)
      ensures status != Status.Ok ==> DecodePiccKeys(r, old(picc)) == Fail(status)
    {
      hide DecodeKeys;
      if r[9].None? { return Malformed; }
      var keys := DecodeKeys(r[9].value, KeyLength(picc.ks2), 0);
      if keys.Fail? { return keys.status; }
      picc := picc.(keys := keys.value);
      if r[11].Some? || r[12].Some? || r[13].Some? || r[14].Some? { return Unsupported; }
      return Status.Ok;
    }

    /** Adds the files of one owner, element by element. */
    method FillFiles(s: octets, owner: nat) returns (status: Status)
      modifies this`files
      ensures status == Status.Ok ==> DecodeFiles(s, owner, old(files)) == Done(files)
      ensures status != Status.Ok ==> DecodeFiles(s, owner, old(files)) == Fail(status)
    {
      hide DecodeFile, DecodeFiles, ParseTlv;
      var at := 0;
      assert s[0..] == s;
      while at < |s|
        invariant at <= |s| && DecodeFiles(s[at..], owner, files) == DecodeFiles(s, owner, old(files))
      {
        FilesUnfold(s[at..], owner, files);
        var ok, tag, bodyAt, bodyLen := ReadTlv(s, at);
        if !ok || tag != TAG_SEQUENCE { return Malformed; }
        var f := DecodeFile(s[bodyAt..bodyAt + bodyLen], owner, files);
        if f.Fail? { return f.status; }
        files := files + [f.value];
        ParsedNotEmpty(s[at..]);
        at := bodyAt + bodyLen;
      }
      NoFilesLeft(owner, files);
      assert s[at..] == [];
      return Status.Ok;
    }

    /** Adds the applications, each followed by its files. */
    method FillApps(s: octets) returns (status: Status)
      modifies this`apps, this`files
      ensures status == Status.Ok ==> DecodeApps(s, picc, old(apps), old(files)) == Done((apps, files))
      ensures status != Status.Ok ==> DecodeApps(s, picc, old(apps), old(files)) == Fail(status)
    {
      hide DecodeApp, ReadFields, TotalKeyUse, DecodeFiles, ParseTlv, DecodeApps;
      var at := 0;
      assert s[0..] == s;
      while at < |s|
        invariant at <= |s| && DecodeApps(s[at..], picc, apps, files) == DecodeApps(s, picc, old(apps), old(files))
      {
        AppsUnfold(s[at..], picc, apps, files);
        var ok, tag, bodyAt, bodyLen := ReadTlv(s, at);
        if !ok || tag != TAG_SEQUENCE { return Malformed; }
        if |apps| >= MAX_APPS { return Capacity; }
        var fields := Components(APP_ORDER, s[bodyAt..bodyAt + bodyLen]);
        if fields.Fail? { return fields.status; }
        var app := DecodeApp(fields.value, apps, TotalKeyUse(picc, apps));
        if app.Fail? { return app.status; }
        var owner := |apps|;
        apps := apps + [app.value];
        if fields.value[7].None? { return Malformed; }
        status := FillFiles(fields.value[7].value, owner);
        if status != Status.Ok { return; }
        ParsedNotEmpty(s[at..]);
        at := bodyAt + bodyLen;
      }
      NoMoreApps(picc, apps, files);
      assert s[at..] == [];
      return Status.Ok;
    }

    /** Fills the credential from whatever it held before. A failure may leave any part of
        it written. */
    method Fill(s: octets) returns (status: Status)
      modifies this
      ensures status == Status.Ok ==> DecodeCredential(s) == Done(Contents())
      ensures status != Status.Ok ==> DecodeCredential(s) == Fail(status)
    {
      hide DecodeCard, DecodeApps, DecodeFiles, ParseTlv, ReadFields, Valid, Unsigned;
      hide DecodePiccSettings, DecodePiccIdentity, DecodePiccKeys;
      if |s| > DER_MAX_SIZE { return Malformed; }
      var ok, tag, bodyAt, bodyLen := ReadTlv(s, 0);
      assert s[0..] == s;
      if !ok || tag != TAG_CREDENTIAL || bodyAt + bodyLen != |s| { return Malformed; }
      var fields := Components(CREDENTIAL_ORDER, s[bodyAt..bodyAt + bodyLen]);
      if fields.Fail? { return fields.status; }
      var r := fields.value;
      var version := Unsigned(r[0], 0xFF);
      if version.Fail? { return version.status; }
      if version.value != FORMAT_VERSION { return Unsupported; }
      Clear();
      if r[1].None? { return Malformed; }
      status := FillCard(r[1].value);
      if status != Status.Ok { return; }
      if r[2].None? { return Malformed; }
      var components := Components(PICC_ORDER, r[2].value);
      if components.Fail? { return components.status; }
      var p := components.value;
      status := FillPiccSettings(p);
      if status != Status.Ok { return; }
      status := FillPiccIdentity(p);
      if status != Status.Ok { return; }
      status := FillPiccKeys(p);
      if status != Status.Ok { return; }
      if r[3].None? { return Malformed; }
      status := FillApps(r[3].value);
      if status != Status.Ok { return; }
      if p[10].None? { return Malformed; }
      status := FillFiles(p[10].value, PICC_OWNER);
      if status != Status.Ok { return; }
      if !Valid(Contents()) { return Malformed; }
      return Status.Ok;
    }

    /** Decodes into the object, whatever it held. What it then holds passes the model check
        and is in normal form; a failure leaves it cleared, never partly filled. */
    method Decode(s: octets) returns (status: Status)
      modifies this
      ensures status == Status.Ok ==> DecodeCredential(s) == Done(Contents())
      ensures status == Status.Ok ==> Valid(Contents()) && Normal(Contents()) == Contents() && FilesFit(Contents())
      ensures status != Status.Ok ==> DecodeCredential(s) == Fail(status) && Contents() == CLEARED
    {
      hide DecodeCredential, Valid, Normal, FilesFit;
      status := Fill(s);
      if status != Status.Ok { Clear(); } else { AcceptedIsNormal(s); }
    }
  }

  /** Encoding and decoding again, through the same buffer: the credential is back in
      normal form exactly when its files are small enough to be stored. */
  method SaveAndLoad(c: Credential, out: array<byte>, sizeMax: nat, store: Store) returns (saved: Status, loaded: Status)
    requires sizeMax >= 0xFFFF_FFFF && out.Length <= sizeMax
    modifies out, store
    ensures saved == Status.Ok ==> Valid(c)
    ensures saved == Status.Ok ==> (loaded == Status.Ok <==> FilesFit(c))
    ensures saved == Status.Ok && FilesFit(c) ==> store.Contents() == Normal(c)
    ensures saved == Status.Ok && !FilesFit(c) ==> loaded == Capacity && store.Contents() == CLEARED
  {
    hide Valid, DecodeCredential, FilesFit, Normal;
    loaded := Malformed;
    var len;
    saved, len := EncodeCredential(c, out, sizeMax);
    if saved == Status.Ok {
      RoundTrip(c);
      loaded := store.Decode(out[..len]);
    }
  }

  /** Decoding, saving and decoding again changes nothing, whoever wrote the first octets. */
  method LoadAndSave(s: octets, out: array<byte>, sizeMax: nat, store: Store) returns (first: Status, saved: Status, second: Status)
    requires sizeMax >= 0xFFFF_FFFF && out.Length <= sizeMax
    modifies out, store
    ensures first == Status.Ok && saved == Status.Ok ==>
      second == Status.Ok && DecodeCredential(s) == Done(store.Contents())
  {
    hide Valid, DecodeCredential, FilesFit, Normal;
    saved, second := Malformed, Malformed;
    first := store.Decode(s);
    if first == Status.Ok {
      var c := store.Contents();
      saved, second := SaveAndLoad(c, out, sizeMax, store);
    }
  }
}
