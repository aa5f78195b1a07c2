/** Normal form keeps a credential valid and keeps every owner's files: grouping by owner
    is a permutation. */
module DerNormalForm {
  import opened Bytes
  import opened Limits
  import opened DerTlv
  import opened DerSchema

  // ---- Grouping is a permutation ----------------------------------------------------------

  function Inserted<T>(s: seq<T>, k: nat, x: T): seq<T>
    requires k <= |s|
  {
    s[..k] + [x] + s[k..]
  }

  lemma FilesOfPush(files: seq<File>, f: File, owner: nat)
    ensures FilesOf(files + [f], owner) == FilesOf(files, owner) + (if f.owner == owner then [f] else [])
  {
    assert (files + [f])[..|files|] == files;
  }

  lemma InsertedThen<T>(s: seq<T>, k: nat, x: T, t: seq<T>)
    requires k <= |s|
    ensures Inserted(s, k, x) + t == Inserted(s + t, k, x)
  {
  }

  lemma InsertedLast<T>(s: seq<T>, t: seq<T>, x: T)
    ensures s + (t + [x]) == Inserted(s + t, |s + t|, x)
  {
  }

  lemma {:induction false} GroupedPush(files: seq<File>, f: File, n: nat) returns (k: nat)
    ensures k <= |Grouped(files, n)|
    ensures f.owner < n ==> Grouped(files + [f], n) == Inserted(Grouped(files, n), k, f)
    ensures f.owner >= n ==> Grouped(files + [f], n) == Grouped(files, n)
  {
    hide FilesOf, Inserted;
    if n == 0 {
      k := 0;
    } else {
      k := GroupedPush(files, f, n - 1);
      FilesOfPush(files, f, n - 1);
      if f.owner == n - 1 {
        k := |Grouped(files, n)|;
        InsertedLast(Grouped(files, n - 1), FilesOf(files, n - 1), f);
      } else if f.owner < n - 1 {
        InsertedThen(Grouped(files, n - 1), k, f, FilesOf(files, n - 1));
      }
    }
  }

  lemma RegroupedPush(files: seq<File>, f: File, n: nat) returns (k: nat)
    requires n <= PICC_OWNER && (f.owner < n || f.owner == PICC_OWNER)
    ensures k <= |Regrouped(files, n)|
    ensures Regrouped(files + [f], n) == Inserted(Regrouped(files, n), k, f)
  {
    hide FilesOf, Inserted, Grouped;
    k := GroupedPush(files, f, n);
    FilesOfPush(files, f, PICC_OWNER);
    if f.owner == PICC_OWNER {
      k := |Regrouped(files, n)|;
      InsertedLast(Grouped(files, n), FilesOf(files, PICC_OWNER), f);
    } else {
      InsertedThen(Grouped(files, n), k, f, FilesOf(files, PICC_OWNER));
    }
  }

  lemma {:induction false} StoredAppend(a: seq<File>, b: seq<File>)
    ensures TotalStored(a + b) == TotalStored(a) + TotalStored(b)
    decreases |b|
  {
    hide StoredSize;
    if b == [] {
      assert a + b == a;
    } else {
      StoredAppend(a, b[..|b| - 1]);
      assert (a + b)[..|a + b| - 1] == a + b[..|b| - 1];
    }
  }

  lemma StoredInserted(s: seq<File>, k: nat, f: File)
    requires k <= |s|
    ensures TotalStored(Inserted(s, k, f)) == TotalStored(s) + StoredSize(f.contents)
  {
    StoredAppend(s[..k] + [f], s[k..]);
    StoredAppend(s[..k], [f]);
    StoredAppend(s[..k], s[k..]);
    assert s[..k] + s[k..] == s;
    assert [f][..0] == [];
  }

  predicate SameKey(f: File, g: File)
  {
    f.owner == g.owner && f.number == g.number
  }

  lemma DistinctInserted(s: seq<File>, k: nat, f: File)
    requires k <= |s| && Distinct(s) && forall i :: 0 <= i < |s| ==> !SameKey(s[i], f)
    ensures Distinct(Inserted(s, k, f))
  {
    var t := Inserted(s, k, f);
    forall i, j | 0 <= i < j < |t|
      ensures t[i].owner != t[j].owner || t[i].number != t[j].number
    {
      if i == k {
        assert !SameKey(s[j - 1], f);
      } else if j == k {
        assert !SameKey(s[i], f);
      }
    }
  }

  lemma MembersInserted(s: seq<File>, k: nat, f: File)
    requires k <= |s|
    ensures multiset(Inserted(s, k, f)) == multiset(s) + multiset{f}
  {
    assert s == s[..k] + s[k..];
  }

  predicate Owned(files: seq<File>, n: nat)
  {
    forall i :: 0 <= i < |files| ==> files[i].owner < n || files[i].owner == PICC_OWNER
  }

  lemma NewKey(rest: seq<File>, f: File, g: seq<File>)
    requires Distinct(rest + [f]) && multiset(g) == multiset(rest)
    ensures Distinct(rest) && forall i :: 0 <= i < |g| ==> !SameKey(g[i], f)
  {
    var files := rest + [f];
    assert forall i :: 0 <= i < |rest| ==> files[i] == rest[i] && !SameKey(files[i], files[|rest|]);
    forall i | 0 <= i < |g|
      ensures !SameKey(g[i], f)
    {
      assert g[i] in multiset(g);
      assert g[i] in rest;
    }
  }

  /** Grouping moves files around and does nothing else to them. */
  lemma {:induction false} RegroupedPermutes(files: seq<File>, n: nat)
    requires n <= PICC_OWNER && Owned(files, n)
    ensures multiset(Regrouped(files, n)) == multiset(files)
    ensures |Regrouped(files, n)| == |files|
    ensures TotalStored(Regrouped(files, n)) == TotalStored(files)
    ensures Distinct(files) ==> Distinct(Regrouped(files, n))
    decreases |files|
  {
    hide Grouped, FilesOf, Regrouped, Inserted, StoredSize, Distinct, SameKey;
    if files == [] {
      NothingRegrouped(n);
    } else {
      var f, rest := files[|files| - 1], files[..|files| - 1];
      assert files == rest + [f];
      RegroupedPermutes(rest, n);
      var k := RegroupedPush(rest, f, n);
      var g := Regrouped(rest, n);
      MembersInserted(g, k, f);
      StoredInserted(g, k, f);
      if Distinct(files) {
        NewKey(rest, f, g);
        DistinctInserted(g, k, f);
      }
    }
  }

  lemma {:induction false} NothingGrouped(n: nat)
    ensures Grouped([], n) == []
  {
    if n > 0 { NothingGrouped(n - 1); }
  }

  lemma {:induction false} FilesOfAppend(a: seq<File>, b: seq<File>, owner: nat)
    ensures FilesOf(a + b, owner) == FilesOf(a, owner) + FilesOf(b, owner)
    decreases |b|
  {
    if b == [] {
      assert a + b == a;
    } else {
      FilesOfAppend(a, b[..|b| - 1], owner);
      assert (a + b)[..|a + b| - 1] == a + b[..|b| - 1];
    }
  }

  lemma {:induction false} FilesOfTwice(files: seq<File>, own: nat, owner: nat)
    ensures FilesOf(FilesOf(files, own), owner) == if own == owner then FilesOf(files, owner) else []
  {
    if files != [] {
      var f, rest := files[|files| - 1], files[..|files| - 1];
      FilesOfTwice(rest, own, owner);
      FilesOfAppend(FilesOf(rest, own), if f.owner == own then [f] else [], owner);
      assert FilesOf([f], owner) == if f.owner == owner then [f] else [] by { assert [f][..0] == []; }
    }
  }

  lemma NoFilesOf(owner: nat)
    ensures FilesOf([], owner) == []
  {
  }

  lemma {:induction false} KeepsOwners(files: seq<File>, n: nat, owner: nat)
    ensures FilesOf(Grouped(files, n), owner) == if owner < n then FilesOf(files, owner) else []
  {
    hide FilesOf;
    if n == 0 {
      NoFilesOf(owner);
    } else {
      KeepsOwners(files, n - 1, owner);
      FilesOfAppend(Grouped(files, n - 1), FilesOf(files, n - 1), owner);
      FilesOfTwice(files, n - 1, owner);
    }
  }

  lemma NothingRegrouped(n: nat)
    ensures Regrouped([], n) == []
  {
    NothingGrouped(n);
  }

  /** Every owner's files survive regrouping, in their order. */
  lemma OwnersKeepFiles(files: seq<File>, n: nat, owner: nat)
    requires n <= PICC_OWNER && (owner < n || owner == PICC_OWNER)
    ensures FilesOf(Regrouped(files, n), owner) == FilesOf(files, owner)
  {
    KeepsOwners(files, n, owner);
    FilesOfAppend(Grouped(files, n), FilesOf(files, PICC_OWNER), owner);
    FilesOfTwice(files, PICC_OWNER, owner);
  }

  // ---- Validity ---------------------------------------------------------------------------

  lemma WrittenOk(kind: byte, c: Contents)
    requires ContentsOk(kind, c)
    ensures ContentsOk(kind, Written(c)) && StoredSize(Written(c)) <= StoredSize(c)
  {
    if c.Records? && |c.stored| > c.count {
      assert c.count * c.size <= |c.stored| * c.size;
    }
  }

  lemma {:induction false} NormalStored(files: seq<File>)
    requires forall i :: 0 <= i < |files| ==> ContentsOk(files[i].kind, files[i].contents)
    ensures TotalStored(NormalFiles(files)) <= TotalStored(files)
  {
    hide ContentsOk, StoredSize, Written;
    if files != [] {
      var n := |files| - 1;
      assert NormalFiles(files)[..n] == NormalFiles(files[..n]);
      NormalStored(files[..n]);
      WrittenOk(files[n].kind, files[n].contents);
    }
  }

  lemma AuthSpelledOut(auth: Option<byte>, preferred: Option<byte>, ks2: byte, generation: nat)
    requires AuthOk(auth, preferred, ks2, generation)
    ensures AuthOk(Some(AuthMask(auth, ks2, generation)), preferred, ks2, generation)
  {
  }

  lemma NormalFileOk(f: File, c: Credential)
    requires FileOk(f, c.picc, c.apps)
    ensures FileOk(NormalFile(f), NormalPicc(c.picc, c.card.generation), NormalApps(c.apps, c.card.generation))
  {
    hide ContentsOk, RightsOk, FidOk, Written, NumKeys;
    WrittenOk(f.kind, f.contents);
  }

  lemma {:induction false} KeyUseSpelledOut(apps: seq<App>, generation: nat)
    ensures AppsKeyUse(NormalApps(apps, generation)) == AppsKeyUse(apps)
  {
    hide KeyUse;
    if apps != [] {
      var n := |apps| - 1;
      assert NormalApps(apps, generation)[..n] == NormalApps(apps[..n], generation);
      KeyUseSpelledOut(apps[..n], generation);
    }
  }

  lemma NormalFilesValid(c: Credential)
    requires Valid(c)
    ensures var n := Normal(c);
      && |n.files| <= MAX_FILES && Distinct(n.files) && TotalStored(n.files) <= FILE_POOL_SIZE
      && multiset(n.files) == multiset(NormalFiles(c.files))
      && forall i :: 0 <= i < |n.files| ==> FileOk(n.files[i], n.picc, n.apps)
  {
    hide FileOk, AppOk, PiccOk, CardOk, TotalKeyUse, TotalStored, NormalFile, Regrouped;
    var nf := NormalFiles(c.files);
    OwnersValid(c);
    RegroupedPermutes(nf, |c.apps|);
    NormalStored(c.files);
    var n := Normal(c);
    forall i | 0 <= i < |n.files|
      ensures FileOk(n.files[i], n.picc, n.apps)
    {
      assert n.files[i] in multiset(n.files);
      assert n.files[i] in nf;
      var k :| 0 <= k < |nf| && nf[k] == n.files[i];
      NormalFileOk(c.files[k], c);
    }
  }

  lemma OwnersValid(c: Credential)
    requires Valid(c)
    ensures Owned(NormalFiles(c.files), |c.apps|) && Distinct(NormalFiles(c.files))
    ensures forall i :: 0 <= i < |c.files| ==> ContentsOk(c.files[i].kind, c.files[i].contents)
  {
    hide ContentsOk, RightsOk, FidOk, Written, NumKeys, AppOk, PiccOk, CardOk;
    forall i | 0 <= i < |c.files|
      ensures c.files[i].owner < |c.apps| || c.files[i].owner == PICC_OWNER
      ensures ContentsOk(c.files[i].kind, c.files[i].contents)
    {
      assert FileOk(c.files[i], c.picc, c.apps);
    }
  }

  lemma NormalAppOk(a: App, generation: nat)
    requires AppOk(a, generation)
    ensures AppOk(NormalApp(a, generation), generation)
  {
    hide StoreOk, FidOk, AuthOk;
    AuthSpelledOut(a.auth, a.preferred, a.ks2, generation);
  }

  lemma NormalPiccOk(p: Picc, generation: nat)
    requires PiccOk(p, generation)
    ensures PiccOk(NormalPicc(p, generation), generation)
  {
    hide PlainKeysOk, AuthOk;
    AuthSpelledOut(p.auth, p.preferred, p.ks2, generation);
  }

  /** The normal form of a valid credential is valid. */
  lemma NormalValid(c: Credential)
    requires Valid(c)
    ensures Valid(Normal(c))
  {
    hide FileOk, AppOk, PiccOk, CardOk, AppsKeyUse, TotalStored, NormalFile, Regrouped, Distinct;
    var n, g := Normal(c), c.card.generation;
    NormalFilesValid(c);
    NormalPiccOk(c.picc, g);
    KeyUseSpelledOut(c.apps, g);
    forall i | 0 <= i < |c.apps|
      ensures AppOk(n.apps[i], g)
    {
      NormalAppOk(c.apps[i], g);
    }
    assert forall i :: 0 <= i < |c.apps| ==> n.apps[i].aid == c.apps[i].aid;
  }
}
