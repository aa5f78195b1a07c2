/** The store read as maps: key material by AID, file contents by owner and number.
    Every command is the update its name promises, and touches nothing else. */
module CredentialMaps {
  import opened Bytes
  import opened Limits
  import opened SlicePools
  import opened CredentialStore
  import opened KeySets
  import opened CredentialCommands

  datatype OwnerName = ThePicc | TheApplication(aid: Aid)

  datatype FileName = FileName(owner: OwnerName, number: byte)

  datatype Card = Card(picc: Owned, keys: map<Aid, Owned>, files: map<FileName, seq<byte>>)

  function NameOf(aids: seq<Aid>, owner: nat): OwnerName
  {
    if owner < |aids| then TheApplication(aids[owner]) else ThePicc
  }

  function FileNameOf(aids: seq<Aid>, f: File): FileName
  {
    FileName(NameOf(aids, f.info.owner), f.info.number)
  }

  function FileMap(aids: seq<Aid>, files: seq<File>): map<FileName, seq<byte>>
  {
    if files == [] then map[] else FileMap(aids, files[1..])[FileNameOf(aids, files[0]) := files[0].data]
  }

  function KeyMap(aids: seq<Aid>, keyed: seq<Owned>): map<Aid, Owned>
    requires |aids| <= |keyed|
  {
    if aids == [] then map[] else KeyMap(aids[1..], keyed[1..])[aids[0] := keyed[0]]
  }

  function CardOf(s: Store): Card
    requires |s.keyed| == MAX_APPS + 1 && |s.aids| <= MAX_APPS
  {
    Card(s.keyed[PICC], KeyMap(s.aids, s.keyed), FileMap(s.aids, s.files))
  }

  /** The update a command's name promises, on the maps alone. `aids` turns the
      position a command uses into an AID. */
  function Named(card: Card, aids: seq<Aid>, c: Command): Card
  {
    match c
    case CreateApplication(aid, settings1, settings2) =>
      card.(keys := card.keys[aid := NewApplication(settings1, settings2)])
    case DeleteApplication(a) =>
      if a >= |aids| then card else
      card.(keys := card.keys - {aids[a]},
            files := map n | n in card.files && n.owner != TheApplication(aids[a]) :: card.files[n])
    case CreateFile(a, number) => card.(files := card.files[FileName(NameOf(aids, a), number) := []])
    case DeleteFile(owner, number) => card.(files := card.files - {FileName(NameOf(aids, owner), number)})
    case ResizeFile(owner, number, length) =>
      var n := FileName(NameOf(aids, owner), number);
      if n !in card.files || |card.files[n]| == length then card else card.(files := card.files[n := Zeros(length)])
    case WriteFile(owner, number, at, data) =>
      var n := FileName(NameOf(aids, owner), number);
      if n !in card.files || at + |data| > |card.files[n]| then card else
      card.(files := card.files[n := Overwritten(card.files[n], at, data)])
    case ResizeKeys(a, numKeys, keyLen) => OnKeys(card, aids, a, o => KeysResized(o, numKeys, keyLen))
    case ResizeKeySets(a, numKeySets, numKeys, activeLen, maxKeySize) =>
      if !(MIN_KEY_SETS <= numKeySets <= MAX_KEY_SETS && 0 < numKeys <= MAX_KEYS) then card else
      OnKeys(card, aids, a, o => KeySetsResized(o, numKeySets, numKeys, activeLen, maxKeySize))
    case RollKeySet(a, r) => OnKeys(card, aids, a, o => if HasSets(o) then Rolled(o, r) else o)
    case ReleaseKeys(a) => OnKeys(card, aids, a, (o: Owned) => Owned(o.k.(numKeys := 0, keyLen := 0, storageLen := 0), [], []))
    case FormatPicc => Card(card.picc, map[], map[])
  }

  function OnKeys(card: Card, aids: seq<Aid>, a: nat, f: Owned -> Owned): Card
  {
    if a < |aids| then
      if aids[a] in card.keys then card.(keys := card.keys[aids[a] := f(card.keys[aids[a]])]) else card
    else card.(picc := f(card.picc))
  }

  // ---- The key map ------------------------------------------------------------------

  ghost predicate Distinct(aids: seq<Aid>)
  {
    forall i, j :: 0 <= i < j < |aids| ==> aids[i] != aids[j]
  }

  lemma {:induction false} KeyMapKeys(aids: seq<Aid>, keyed: seq<Owned>, aid: Aid)
    requires |aids| <= |keyed|
    ensures aid in KeyMap(aids, keyed) <==> aid in aids
  {
    if aids != [] { KeyMapKeys(aids[1..], keyed[1..], aid); }
  }

  lemma {:induction false} KeyMapAt(aids: seq<Aid>, keyed: seq<Owned>, a: nat, o: Owned)
    requires |aids| <= |keyed| && a < |aids| && Distinct(aids)
    ensures aids[a] in KeyMap(aids, keyed) && KeyMap(aids, keyed)[aids[a]] == keyed[a]
    ensures KeyMap(aids, keyed[a := o]) == KeyMap(aids, keyed)[aids[a] := o]
  {
    if a > 0 {
      KeyMapAt(aids[1..], keyed[1..], a - 1, o);
      assert keyed[a := o][1..] == keyed[1..][a - 1 := o];
    } else {
      assert keyed[a := o][1..] == keyed[1..];
    }
  }

  lemma {:induction false} KeyMapPrefix(aids: seq<Aid>, keyed: seq<Owned>, other: seq<Owned>)
    requires |aids| <= |keyed| && |aids| <= |other| && keyed[..|aids|] == other[..|aids|]
    ensures KeyMap(aids, keyed) == KeyMap(aids, other)
  {
    if aids != [] {
      assert keyed[0] == keyed[..|aids|][0] == other[..|aids|][0] == other[0];
      assert keyed[1..][..|aids| - 1] == keyed[..|aids|][1..];
      assert other[1..][..|aids| - 1] == other[..|aids|][1..];
      KeyMapPrefix(aids[1..], keyed[1..], other[1..]);
    }
  }

  lemma {:induction false} KeyMapAppend(aids: seq<Aid>, keyed: seq<Owned>, aid: Aid)
    requires |aids| < |keyed| && aid !in aids
    ensures KeyMap(aids + [aid], keyed) == KeyMap(aids, keyed)[aid := keyed[|aids|]]
  {
    if aids != [] {
      KeyMapAppend(aids[1..], keyed[1..], aid);
      assert (aids + [aid])[1..] == aids[1..] + [aid];
    } else {
      assert (aids + [aid])[1..] == [];
    }
  }

  lemma {:induction false} KeyMapRemove(aids: seq<Aid>, keyed: seq<Owned>, rest: seq<Owned>, a: nat)
    requires |aids| <= |keyed| && a < |aids| && Distinct(aids)
    requires |rest| >= |aids| - 1 && rest[..|aids| - 1] == keyed[..a] + keyed[a + 1..|aids|]
    ensures KeyMap(aids[..a] + aids[a + 1..], rest) == KeyMap(aids, keyed) - {aids[a]}
  {
    var kept := aids[..a] + aids[a + 1..];
    if a == 0 {
      KeyMapKeys(aids[1..], keyed[1..], aids[0]);
      assert kept == aids[1..];
      assert keyed[1..][..|aids| - 1] == keyed[1..|aids|];
      KeyMapPrefix(aids[1..], keyed[1..], rest);
      assert KeyMap(aids, keyed) - {aids[0]} == KeyMap(aids[1..], keyed[1..]);
    } else {
      assert kept[0] == aids[0] && kept[1..] == aids[1..][..a - 1] + aids[1..][a..];
      assert rest[0] == rest[..|aids| - 1][0] == keyed[0];
      assert rest[1..][..|aids| - 2] == rest[..|aids| - 1][1..] == keyed[1..][..a - 1] + keyed[1..][a..|aids| - 1];
      KeyMapRemove(aids[1..], keyed[1..], rest[1..], a - 1);
    }
  }

  // ---- The file map -------------------------------------------------------------------

  ghost predicate OwnersOk(aids: seq<Aid>, files: seq<File>)
  {
    && |aids| <= PICC_OWNER
    && forall i :: 0 <= i < |files| ==> files[i].info.owner < |aids| || files[i].info.owner == PICC_OWNER
  }

  ghost predicate NumbersOk(files: seq<File>)
  {
    forall i, j :: 0 <= i < j < |files| ==> !SameFile(files[i], files[j].info.owner, files[j].info.number)
  }

  /** Names are equal only when owner and number are. */
  lemma NamesInjective(aids: seq<Aid>, f: File, g: File)
    requires Distinct(aids) && OwnersOk(aids, [f]) && OwnersOk(aids, [g])
    ensures FileNameOf(aids, f) == FileNameOf(aids, g) <==> SameFile(f, g.info.owner, g.info.number)
  {
    assert [f][0] == f && [g][0] == g;
  }

  lemma {:induction false} FileMapAt(aids: seq<Aid>, files: seq<File>, i: nat, data: seq<byte>)
    requires Distinct(aids) && OwnersOk(aids, files) && NumbersOk(files) && i < |files|
    ensures FileNameOf(aids, files[i]) in FileMap(aids, files)
    ensures FileMap(aids, files)[FileNameOf(aids, files[i])] == files[i].data
    ensures FileMap(aids, files[i := files[i].(data := data)]) == FileMap(aids, files)[FileNameOf(aids, files[i]) := data]
  {
    var g := files[i].(data := data);
    if i > 0 {
      FileMapAt(aids, files[1..], i - 1, data);
      assert files[i := g][1..] == files[1..][i - 1 := g];
      NamesInjective(aids, files[0], files[i]);
    } else {
      assert files[i := g][1..] == files[1..];
    }
  }

  lemma {:induction false} FileMapMisses(aids: seq<Aid>, files: seq<File>, f: File)
    requires Distinct(aids) && OwnersOk(aids, files) && OwnersOk(aids, [f])
    requires forall i :: 0 <= i < |files| ==> !SameFile(files[i], f.info.owner, f.info.number)
    ensures FileNameOf(aids, f) !in FileMap(aids, files)
  {
    if files != [] {
      NamesInjective(aids, files[0], f);
      FileMapMisses(aids, files[1..], f);
    }
  }

  lemma {:induction false} FileMapAppend(aids: seq<Aid>, files: seq<File>, f: File)
    requires Distinct(aids) && OwnersOk(aids, files) && OwnersOk(aids, [f])
    requires forall i :: 0 <= i < |files| ==> !SameFile(files[i], f.info.owner, f.info.number)
    ensures FileMap(aids, files + [f]) == FileMap(aids, files)[FileNameOf(aids, f) := f.data]
  {
    if files == [] {
      assert (files + [f])[1..] == [];
    } else {
      NamesInjective(aids, files[0], f);
      FileMapAppend(aids, files[1..], f);
      assert (files + [f])[1..] == files[1..] + [f];
    }
  }

  lemma UpdateThenRemove<K, T>(m: map<K, T>, k: K, gone: K, v: T)
    requires k != gone
    ensures (m - {gone})[k := v] == m[k := v] - {gone}
  {
  }

  function Lacking<T>(s: seq<T>, i: nat): (r: seq<T>)
    requires i < |s|
    ensures |r| == |s| - 1
  {
    s[..i] + s[i + 1..]
  }

  lemma LackingTail<T>(s: seq<T>, i: nat)
    requires i < |s|
    ensures i == 0 ==> Lacking(s, i) == s[1..]
    ensures i > 0 ==> Lacking(s, i)[0] == s[0] && Lacking(s, i)[1..] == Lacking(s[1..], i - 1)
  {
  }

  lemma {:induction false} FileMapRemove(aids: seq<Aid>, files: seq<File>, i: nat)
    requires Distinct(aids) && OwnersOk(aids, files) && NumbersOk(files) && i < |files|
    ensures FileMap(aids, Lacking(files, i)) == FileMap(aids, files) - {FileNameOf(aids, files[i])}
  {
    TailOk(aids, files);
    LackingTail(files, i);
    hide FileNameOf, FileMap, OwnersOk, NumbersOk, Distinct, SameFile, Lacking;
    FileMapStep(aids, files);
    var rest, first := FileMap(aids, files[1..]), FileNameOf(aids, files[0]);
    if i == 0 {
      FileMapMisses(aids, files[1..], files[0]);
      AddThenRemove(rest, first, files[0].data);
    } else {
      FileMapStep(aids, Lacking(files, i));
      FileMapRemove(aids, files[1..], i - 1);
      FirstDiffers(aids, files, i);
      UpdateThenRemove(rest, first, FileNameOf(aids, files[i]), files[0].data);
    }
  }

  lemma TailOk(aids: seq<Aid>, files: seq<File>)
    requires OwnersOk(aids, files) && NumbersOk(files) && files != []
    ensures OwnersOk(aids, files[1..]) && NumbersOk(files[1..]) && OwnersOk(aids, [files[0]])
    ensures forall i :: 0 <= i < |files[1..]| ==> !SameFile(files[1..][i], files[0].info.owner, files[0].info.number)
  {
  }

  lemma FirstDiffers(aids: seq<Aid>, files: seq<File>, i: nat)
    requires Distinct(aids) && OwnersOk(aids, files) && NumbersOk(files) && 0 < i < |files|
    ensures FileNameOf(aids, files[0]) != FileNameOf(aids, files[i])
  {
    assert OwnersOk(aids, [files[0]]) && OwnersOk(aids, [files[i]]);
    NamesInjective(aids, files[0], files[i]);
  }

  lemma AddThenRemove<K, T>(m: map<K, T>, k: K, v: T)
    requires k !in m
    ensures m[k := v] - {k} == m
  {
  }

  lemma FileMapStep(aids: seq<Aid>, files: seq<File>)
    requires files != []
    ensures FileMap(aids, files) == FileMap(aids, files[1..])[FileNameOf(aids, files[0]) := files[0].data]
  {
  }

  /** A file that stays keeps its name, though its owner's position may change. */
  lemma RenumberedName(aids: seq<Aid>, f: File, a: nat)
    requires Distinct(aids) && OwnersOk(aids, [f]) && a < |aids|
    ensures FileNameOf(aids, f).owner == TheApplication(aids[a]) <==> f.info.owner == a
    ensures f.info.owner != a ==> FileNameOf(aids[..a] + aids[a + 1..], Renumbered(f, a)) == FileNameOf(aids, f)
    ensures Renumbered(f, a).data == f.data
  {
    assert [f][0] == f;
  }

  lemma {:induction false} FileMapDrop(aids: seq<Aid>, files: seq<File>, a: nat)
    requires Distinct(aids) && OwnersOk(aids, files) && a < |aids|
    ensures var m := FileMap(aids, files);
            FileMap(aids[..a] + aids[a + 1..], DropOwner(files, a))
            == map n | n in m && n.owner != TheApplication(aids[a]) :: m[n]
  {
    if files != [] {
      hide FileNameOf;
      FileMapDrop(aids, files[1..], a);
      assert OwnersOk(aids, [files[0]]);
      RenumberedName(aids, files[0], a);
    }
  }

  lemma {:induction false} FileMapOtherAid(aids: seq<Aid>, files: seq<File>, aid: Aid)
    requires OwnersOk(aids, files) && |aids| < PICC_OWNER
    ensures FileMap(aids + [aid], files) == FileMap(aids, files)
  {
    if files != [] { FileMapOtherAid(aids, files[1..], aid); }
  }

  // ---- Commands are the updates they are named for ---------------------------------------

  /** Files change and nothing else. */
  lemma OnlyFiles(s: Store, files: seq<File>)
    requires Sized(s)
    ensures CardOf(s.(files := files)) == CardOf(s).(files := FileMap(s.aids, files))
  {
  }

  lemma FileListNamed(s: Store, c: Command)
    requires StoreOk(s) && Allowed(s, c) && (c.CreateFile? || c.DeleteFile?)
    ensures CardOf(Effect(s, c)) == Named(CardOf(s), s.aids, c)
  {
    assert Distinct(s.aids) && OwnersOk(s.aids, s.files) && NumbersOk(s.files);
    OkIsSized(s);
    OnlyFiles(s, Effect(s, c).files);
    hide FileMap, KeyMap, StoreOk;
    if c.CreateFile? {
      FileMapAppend(s.aids, s.files, NewFile(c.app, c.number));
    } else {
      FileMapRemove(s.aids, s.files, FindFile(s.files, c.owner, c.number));
    }
  }

  lemma RefilledAs(data: seq<byte>, want: nat)
    ensures Refilled(data, want) == if |data| == want then data else Zeros(want)
  {
  }

  lemma FileDataNamed(s: Store, c: Command)
    requires StoreOk(s) && Allowed(s, c) && (c.ResizeFile? || c.WriteFile?)
    ensures CardOf(Effect(s, c)) == Named(CardOf(s), s.aids, c)
  {
    assert Distinct(s.aids) && OwnersOk(s.aids, s.files) && NumbersOk(s.files);
    OkIsSized(s);
    OnlyFiles(s, Effect(s, c).files);
    hide FileMap, KeyMap, StoreOk, Overwritten, Refilled;
    var i := FindFile(s.files, c.owner, c.number);
    var m, n := FileMap(s.aids, s.files), FileNameOf(s.aids, s.files[i]);
    var data := if c.ResizeFile? then Refilled(s.files[i].data, c.length) else Overwritten(s.files[i].data, c.at, c.data);
    FileMapAt(s.aids, s.files, i, data);
    assert n in m && m[n] == s.files[i].data && m[n := m[n]] == m;
    if c.ResizeFile? { RefilledAs(s.files[i].data, c.length); }
  }

  lemma KeyCommandNamed(s: Store, c: Command)
    requires StoreOk(s) && Allowed(s, c)
    requires c.ResizeKeys? || c.ResizeKeySets? || c.RollKeySet? || c.ReleaseKeys?
    ensures CardOf(Effect(s, c)) == Named(CardOf(s), s.aids, c)
  {
    hide Rolled, KeysResized, KeySetsResized, HasSets, StoreOk, CardOf;
    OkIsSized(s);
    match c
    case ResizeKeys(a, numKeys, keyLen) => RecordNamed(s, a, KeysResized(s.keyed[a], numKeys, keyLen));
    case ResizeKeySets(a, numKeySets, numKeys, activeLen, maxKeySize) =>
      RecordNamed(s, a, KeySetsResized(s.keyed[a], numKeySets, numKeys, activeLen, maxKeySize));
    case RollKeySet(a, r) => RecordNamed(s, a, Rolled(s.keyed[a], r));
    case ReleaseKeys(a) => RecordNamed(s, a, Released(s.keyed[a]));
  }

  /** One record's keys change: those of the application at this position, or the PICC's. */
  lemma RecordNamed(s: Store, a: nat, o: Owned)
    requires StoreOk(s) && (a < |s.aids| || a == PICC)
    ensures CardOf(WithKeys(s, a, o)) ==
      if a < |s.aids| then CardOf(s).(keys := CardOf(s).keys[s.aids[a] := o]) else CardOf(s).(picc := o)
    ensures a < |s.aids| ==> s.aids[a] in CardOf(s).keys && CardOf(s).keys[s.aids[a]] == s.keyed[a]
    ensures CardOf(s).picc == s.keyed[PICC]
  {
    hide Consistent;
    var t := WithKeys(s, a, o);
    if a < |s.aids| {
      KeyMapAt(s.aids, s.keyed, a, o);
    } else {
      KeyMapPrefix(s.aids, s.keyed, t.keyed);
    }
  }

  /** Every accepted command acts on the maps as its name says: the one entry it
      names changes, and whatever the pools and the record arrays have to move for
      it leaves all other keys and files as they were. */
  lemma EffectIsNamed(s: Store, c: Command)
    requires StoreOk(s) && Allowed(s, c)
    ensures CardOf(Effect(s, c)) == Named(CardOf(s), s.aids, c)
  {
    hide StoreOk;
    match c
    case CreateApplication(_, _, _) => CreationNamed(s, c);
    case DeleteApplication(_) => DeletionNamed(s, c);
    case FormatPicc => FormatNamed(s);
    case CreateFile(_, _) => FileListNamed(s, c);
    case DeleteFile(_, _) => FileListNamed(s, c);
    case ResizeFile(_, _, _) => FileDataNamed(s, c);
    case WriteFile(_, _, _, _) => FileDataNamed(s, c);
    case _ => KeyCommandNamed(s, c);
  }

  lemma FormatNamed(s: Store)
    requires StoreOk(s)
    ensures CardOf(Effect(s, FormatPicc)) == Named(CardOf(s), s.aids, FormatPicc)
  {
    assert Effect(s, FormatPicc).keyed[PICC] == s.keyed[PICC];
  }

  lemma CreationNamed(s: Store, c: Command)
    requires StoreOk(s) && Allowed(s, c) && c.CreateApplication?
    ensures CardOf(Effect(s, c)) == Named(CardOf(s), s.aids, c)
  {
    hide Rolled, NewApplication, Consistent;
    var t := Effect(s, c);
    assert OwnersOk(s.aids, s.files);
    KeyMapAppend(s.aids, t.keyed, c.aid);
    KeyMapPrefix(s.aids, s.keyed, t.keyed);
    FileMapOtherAid(s.aids, s.files, c.aid);
  }

  lemma DeletionNamed(s: Store, c: Command)
    requires StoreOk(s) && Allowed(s, c) && c.DeleteApplication?
    ensures CardOf(Effect(s, c)) == Named(CardOf(s), s.aids, c)
  {
    hide Rolled, DropOwner, Consistent;
    var t := Effect(s, c);
    assert Distinct(s.aids) && OwnersOk(s.aids, s.files);
    assert t.keyed[..|s.aids| - 1] == s.keyed[..c.app] + s.keyed[c.app + 1..|s.aids|];
    KeyMapRemove(s.aids, s.keyed, t.keyed, c.app);
    FileMapDrop(s.aids, s.files, c.app);
  }

  /** How the list of AIDs, which gives the applications their positions, changes. */
  function AidsAfter(aids: seq<Aid>, c: Command): seq<Aid>
  {
    match c
    case CreateApplication(aid, _, _) => aids + [aid]
    case DeleteApplication(a) => if a < |aids| then aids[..a] + aids[a + 1..] else aids
    case FormatPicc => []
    case _ => aids
  }

  /** The accepted commands of a run, applied to the maps by name. */
  function NamedRun(card: Card, aids: seq<Aid>, run: seq<Command>, accepted: seq<bool>): (Card, seq<Aid>)
    requires |run| == |accepted|
  {
    if run == [] then (card, aids)
    else
      var last := |run| - 1;
      var (before, names) := NamedRun(card, aids, run[..last], accepted[..last]);
      if accepted[last] then (Named(before, names, run[last]), AidsAfter(names, run[last])) else (before, names)
  }

  /** Whatever a run does, the maps read off the store are those its accepted commands
      name, one update at a time. */
  lemma {:induction false} RunIsNamed(s: Store, run: seq<Command>, room: Capacity)
    requires StoreOk(s)
    ensures var t := After(s, run, room);
      NamedRun(CardOf(s), s.aids, run, Acceptance(s, run, room)) == (CardOf(t), t.aids)
  {
    hide Effect, Named, Fits, Allowed;
    if run != [] {
      var last := |run| - 1;
      var m := After(s, run[..last], room);
      RunIsNamed(s, run[..last], room);
      assert Acceptance(s, run, room)[..last] == Acceptance(s, run[..last], room);
      if Accepts(m, run[last], room) {
        EffectIsNamed(m, run[last]);
        AidsMove(m, run[last]);
      }
    }
  }

  lemma AidsMove(s: Store, c: Command)
    requires Sized(s) && Allowed(s, c)
    ensures Effect(s, c).aids == AidsAfter(s.aids, c)
  {
  }
}
