/** What the decoder accepts, whoever wrote it: a credential that passes the model check,
    in normal form, with files small enough to be stored. */
module DerAccepted {
  import opened Bytes
  import opened Limits
  import opened DerTlv
  import opened DerFields
  import opened DerRecords
  import opened DerSchema
  import opened DerWriter
  import opened DerEncoder
  import opened DerDecoder
  import opened DerNormalForm
  import opened DerRoundTrip

  /** A file as the decoder leaves it. */
  predicate Loaded(f: File, owner: nat)
  {
    f.owner == owner && NormalFile(f) == f && StoredSize(f.contents) <= MAX_FILE_DATA
  }

  predicate AllLoaded(files: seq<File>, owner: nat)
  {
    forall i :: 0 <= i < |files| ==> Loaded(files[i], owner)
  }

  lemma RecordsLoaded(body: octets, kind: byte, files: seq<File>)
    requires DecodeRecords(body, kind, files).Done?
    ensures var c := DecodeRecords(body, kind, files).value; Written(c) == c && StoredSize(c) <= MAX_FILE_DATA
  {
    hide Components, Unsigned, Boolean, ReadList, TotalStored;
  }

  lemma DataLoaded(body: octets, files: seq<File>)
    requires DecodeData(body, files).Done?
    ensures var c := DecodeData(body, files).value; Written(c) == c && StoredSize(c) <= MAX_FILE_DATA
  {
    hide Components, Unsigned, Boolean, TotalStored;
  }

  lemma ContentsLoaded(r: Record, kind: byte, files: seq<File>)
    requires |r| == 10 && DecodeContents(r, kind, files).Done?
    ensures var c := DecodeContents(r, kind, files).value; Written(c) == c && StoredSize(c) <= MAX_FILE_DATA
  {
    hide DecodeRecords, DecodeData, Components, Integer, One, Written, StoredSize;
    if kind == 0 || kind == 1 {
      DataLoaded(r[5].value, files);
    } else if kind == 2 {
      ValueLoaded(r[6].value);
    } else {
      RecordsLoaded(r[7].value, kind, files);
    }
  }

  lemma ValueLoaded(body: octets)
    requires DecodeValue(body).Done?
    ensures var c := DecodeValue(body).value; Written(c) == c && StoredSize(c) == 0
  {
    hide Components, Integer, One;
  }

  lemma FileLoaded(body: octets, owner: nat, files: seq<File>)
    requires DecodeFile(body, owner, files).Done?
    ensures Loaded(DecodeFile(body, owner, files).value, owner)
  {
    hide DecodeContents, Components, Unsigned, One, Fixed, FileId, Taken, Written, StoredSize;
    ContentsLoaded(Components(FILE_ORDER, body).value, DecodeFile(body, owner, files).value.kind, files);
  }

  /** Decoding an owner's files adds files of that owner behind the others. */
  lemma {:induction false} FilesLoaded(s: octets, owner: nat, files: seq<File>) returns (own: seq<File>)
    requires DecodeFiles(s, owner, files).Done?
    ensures DecodeFiles(s, owner, files).value == files + own && AllLoaded(own, owner)
    decreases |s|
  {
    hide DecodeFile, ParseTlv, Loaded;
    if s == [] {
      own := [];
    } else {
      var e := ParseTlv(s).value;
      var f := DecodeFile(e.body, owner, files).value;
      FileLoaded(e.body, owner, files);
      ParsedRest(s);
      var rest := FilesLoaded(e.rest, owner, files + [f]);
      own := [f] + rest;
      assert files + own == (files + [f]) + rest;
    }
  }

  lemma ParsedRest(s: octets)
    requires ParseTlv(s).Some?
    ensures |ParseTlv(s).value.rest| < |s|
  {
  }

  // ---- Grouping -----------------------------------------------------------------------------

  /** Files that belong to the first `n` applications, in that order, and are as loaded. */
  ghost predicate InOrder(files: seq<File>, n: nat)
  {
    && Grouped(files, n) == files
    && forall i :: 0 <= i < |files| ==> files[i].owner < n && Loaded(files[i], files[i].owner)
  }

  lemma {:induction false} OneOwner(files: seq<File>, owner: nat, asked: nat)
    requires forall i :: 0 <= i < |files| ==> files[i].owner == owner
    ensures FilesOf(files, asked) == if asked == owner then files else []
  {
    if files != [] {
      var last := |files| - 1;
      OneOwner(files[..last], owner, asked);
      assert files == files[..last] + [files[last]];
    }
  }

  lemma {:induction false} NotOwned(files: seq<File>, asked: nat)
    requires forall i :: 0 <= i < |files| ==> files[i].owner != asked
    ensures FilesOf(files, asked) == []
  {
    if files != [] { NotOwned(files[..|files| - 1], asked); }
  }

  lemma {:induction false} GroupedAppend(files: seq<File>, own: seq<File>, n: nat, owner: nat)
    requires n <= owner && forall i :: 0 <= i < |own| ==> own[i].owner == owner
    ensures Grouped(files + own, n) == Grouped(files, n)
  {
    hide FilesOf;
    if n > 0 {
      GroupedAppend(files, own, n - 1, owner);
      FilesOfAppend(files, own, n - 1);
      OneOwner(own, owner, n - 1);
      assert FilesOf(files, n - 1) + [] == FilesOf(files, n - 1);
    }
  }

  /** The next application's files behind those of the earlier ones are in order. */
  lemma NextInOrder(files: seq<File>, own: seq<File>, n: nat)
    requires InOrder(files, n) && AllLoaded(own, n)
    ensures InOrder(files + own, n + 1)
  {
    hide Loaded, FilesOf, Grouped;
    assert forall i :: 0 <= i < |own| ==> own[i].owner == n by { OwnersOf(own, n); }
    GroupedAppend(files, own, n, n);
    FilesOfAppend(files, own, n);
    NotOwned(files, n);
    OneOwner(own, n, n);
    GroupedStep(files + own, n);
  }

  lemma GroupedStep(files: seq<File>, n: nat)
    ensures Grouped(files, n + 1) == Grouped(files, n) + FilesOf(files, n)
  {
  }

  lemma OwnersOf(own: seq<File>, owner: nat)
    requires AllLoaded(own, owner)
    ensures forall i :: 0 <= i < |own| ==> own[i].owner == owner
  {
  }

  /** Every application comes with its mask spelled out. */
  predicate Spelled(apps: seq<App>)
  {
    forall i :: 0 <= i < |apps| ==> apps[i].auth.Some?
  }

  lemma AppLoaded(r: Record, apps: seq<App>, used: nat)
    requires |r| == 13 && DecodeApp(r, apps, used).Done?
    ensures DecodeApp(r, apps, used).value.auth.Some?
  {
    hide Fixed, FileId, One, Unsigned, Preferred, DecodeStore, OptionalOne;
  }

  lemma {:induction false} AppsLoaded(s: octets, picc: Picc, apps: seq<App>, files: seq<File>)
    requires DecodeApps(s, picc, apps, files).Done? && InOrder(files, |apps|) && Spelled(apps) && |apps| <= MAX_APPS
    ensures var d := DecodeApps(s, picc, apps, files).value; InOrder(d.1, |d.0|) && Spelled(d.0) && |d.0| <= MAX_APPS
    decreases |s|
  {
    hide DecodeFiles, DecodeApp, ParseTlv, Components, TotalKeyUse, InOrder;
    if s != [] {
      var e := ParseTlv(s).value;
      var r := Components(APP_ORDER, e.body).value;
      var app := DecodeApp(r, apps, TotalKeyUse(picc, apps)).value;
      AppLoaded(r, apps, TotalKeyUse(picc, apps));
      var own := FilesLoaded(r[7].value, |apps|, files);
      NextInOrder(files, own, |apps|);
      ParsedRest(s);
      AppsLoaded(e.rest, picc, apps + [app], files + own);
    }
  }

  lemma NothingInOrder()
    ensures InOrder([], 0)
  {
  }

  /** Applications' files in order and the PICC's behind them are regrouped already. */
  lemma OrderedIsRegrouped(files: seq<File>, own: seq<File>, n: nat)
    requires InOrder(files, n) && AllLoaded(own, PICC_OWNER) && n <= MAX_APPS
    ensures Regrouped(NormalFiles(files + own), n) == files + own
    ensures forall i :: 0 <= i < |files + own| ==> StoredSize(Written((files + own)[i].contents)) <= MAX_FILE_DATA
  {
    hide FilesOf, Grouped, StoredSize, Written;
    var all := files + own;
    assert NormalFiles(all) == all;
    OwnersOf(own, PICC_OWNER);
    GroupedAppend(files, own, n, PICC_OWNER);
    FilesOfAppend(files, own, PICC_OWNER);
    NotOwned(files, PICC_OWNER);
    OneOwner(own, PICC_OWNER, PICC_OWNER);
  }

  // ---- The credential -----------------------------------------------------------------------

  lemma PiccLoaded(r: Record)
    requires |r| == 17 && DecodePicc(r).Done?
    ensures DecodePicc(r).value.auth.Some?
  {
    hide One, Unsigned, Preferred, DefaultFalse, AnswerToSelect, OptionalOne, OptionalFixed, DecodeKeys;
  }

  /** Whatever the decoder accepts passes the model check, is in normal form, and can be
      stored. */
  lemma AcceptedIsNormal(s: octets)
    requires DecodeCredential(s).Done?
    ensures var c := DecodeCredential(s).value; Valid(c) && Normal(c) == c && FilesFit(c)
  {
    hide Written, DecodeCard, DecodePicc, DecodeApps, DecodeFiles, ParseTlv, Components, Unsigned, Valid, InOrder, Regrouped, StoredSize;
    var root := ParseTlv(s).value;
    var r := Components(CREDENTIAL_ORDER, root.body).value;
    var p := Components(PICC_ORDER, r[2].value).value;
    var picc := DecodePicc(p).value;
    var decoded := DecodeApps(r[3].value, picc, [], []).value;
    PiccLoaded(p);
    NothingInOrder();
    AppsLoaded(r[3].value, picc, [], []);
    var own := FilesLoaded(p[10].value, PICC_OWNER, decoded.1);
    OrderedIsRegrouped(decoded.1, own, |decoded.0|);
    var c := DecodeCredential(s).value;
    assert c.files == decoded.1 + own && c.apps == decoded.0 && c.picc == picc;
    assert NormalApps(c.apps, c.card.generation) == c.apps;
  }

  /** An accepted credential that is saved again is read back as it was. */
  lemma AcceptedSavesAlike(s: octets)
    requires DecodeCredential(s).Done?
    ensures var c := DecodeCredential(s).value; CredentialWritable(c) && Valid(c)
    ensures var c := DecodeCredential(s).value;
      var root := Cons(TAG_CREDENTIAL, Flatten(CredentialSlots(c)));
      Encodable(root) && SizeOf(root) <= DER_MAX_SIZE ==> DecodeCredential(NodeOctets(root)) == Done(c)
  {
    hide DecodeCredential, Valid, Normal, FilesFit;
    AcceptedIsNormal(s);
    RoundTrip(DecodeCredential(s).value);
  }

  /** Keys a set does not list are zero keys of version zero, and those it lists come first. */
  lemma UnlistedKeysAreZero(body: octets, index: nat, count: nat, maxSize: nat, i: nat)
    requires DecodeSet(body, index, count, maxSize).Done?
    ensures var s := DecodeSet(body, index, count, maxSize).value; var r := Components(SET_ORDER, body);
      && r.Done? && r.value[4].Some? && DecodeSetKeys(r.value[4].value, 0, count, SetKeyLength(s.kind)).Done?
      && var listed := DecodeSetKeys(r.value[4].value, 0, count, SetKeyLength(s.kind)).value;
      && listed <= s.keys
      && (|listed| <= i < |s.keys| ==> s.keys[i] == Key(Zeros(if s.kind == 1 then 24 else 16), 0))
  {
    hide Components, Unsigned, One, Boolean, DecodeSetKeys;
  }
}
