/** The transaction journal: preimages are captured lazily, keyed by file index, while
    files are created and deleted around them. Every operation acts on the card as the
    corresponding command on `TwoCopies`. */
module TransactionJournal {
  import opened Bytes
  import opened Limits
  import opened TwoCopies

  /** What the journal knows about the file with the same index. */
  datatype Slot = Slot(offset: nat, count: nat, captured: bool, created: bool)

  const EMPTY: Slot := Slot(0, 0, false, false)

  /** Whether the open transaction answers for the file. */
  predicate Covered(tx: Option<nat>, f: File)
  {
    tx.Some? && f.app == tx.value && Journaled(f.kind)
  }

  /** The slot lets the base copy `b` be recovered. */
  predicate Held(tx: Option<nat>, f: File, b: File, s: Slot, used: seq<byte>)
  {
    && (s.captured || s.created ==> Covered(tx, f))
    && (f.pending ==> s.captured || s.created)
    && (s.created ==> !s.captured && b.data == Zeros(|b.data|) && b.count == 0)
    && (s.captured ==>
          && s.offset + |b.data| <= |used|
          && used[s.offset..s.offset + |b.data|] == b.data
          && (IsRecord(f.kind) ==> s.count == b.count))
  }

  /** Journal room a file may still claim. */
  function Share(tx: Option<nat>, f: File, s: Slot): nat
  {
    if Covered(tx, f) && !s.captured && !s.created then |f.data| else 0
  }

  function Shares(tx: Option<nat>, files: seq<File>, slots: seq<Slot>): (w: seq<nat>)
    requires |files| <= |slots|
    ensures |w| == |files|
    ensures forall i :: 0 <= i < |w| ==> w[i] == Share(tx, files[i], slots[i])
  {
    seq(|files|, i requires 0 <= i < |files| => Share(tx, files[i], slots[i]))
  }

  predicate Apart(a: Slot, m: nat, b: Slot, n: nat)
  {
    a.captured && b.captured ==> a.offset + m <= b.offset || b.offset + n <= a.offset
  }

  predicate AllHeld(tx: Option<nat>, live: seq<File>, base: seq<File>, slots: seq<Slot>, used: seq<byte>)
  {
    && |live| == |base| <= |slots| == MAX_FILES
    && (forall i :: 0 <= i < |live| ==> Held(tx, live[i], base[i], slots[i], used))
    && (forall i :: |live| <= i < MAX_FILES ==> slots[i] == EMPTY)
  }

  predicate AllApart(base: seq<File>, slots: seq<Slot>)
  {
    && |base| <= |slots|
    && forall i, j :: 0 <= i < j < |base| ==> Apart(slots[i], |base[i].data|, slots[j], |base[j].data|)
  }

  /** Preimages do not overlap, and what is left of the journal covers every file not
      yet captured. */
  predicate JournalOk(tx: Option<nat>, live: seq<File>, base: seq<File>, slots: seq<Slot>,
                      used: seq<byte>, capacity: nat)
  {
    && AllHeld(tx, live, base, slots, used)
    && AllApart(base, slots)
    && (tx.Some? ==> Total(Shares(tx, live, slots)) + |used| <= capacity)
  }

  // ---- What each step does to the journal -------------------------------------------

  lemma FreshJournal(app: nat, live: seq<File>, base: seq<File>, slots: seq<Slot>)
    requires |live| == |base| <= |slots| == MAX_FILES
    requires forall i :: 0 <= i < |live| ==> !live[i].pending
    requires forall i :: 0 <= i < MAX_FILES ==> slots[i] == EMPTY
    ensures forall capacity: nat :: Total(Shares(Some(app), live, slots)) <= capacity ==>
              JournalOk(Some(app), live, base, slots, [], capacity)
    ensures Total(Shares(Some(app), live, slots)) <= Total(Lengths(live))
  {
    TotalAtMost(Shares(Some(app), live, slots), Lengths(live));
  }

  lemma CaptureRoom(tx: Option<nat>, live: seq<File>, base: seq<File>, slots: seq<Slot>,
                    used: seq<byte>, capacity: nat, at: nat, s: Slot)
    requires JournalOk(tx, live, base, slots, used, capacity) && at < |live|
    requires Covered(tx, live[at]) && !slots[at].captured && !slots[at].created
    requires s.captured
    ensures Total(Shares(tx, live, slots[at := s])) + |used + live[at].data| <= capacity
  {
    TotalChange(Shares(tx, live, slots), at, 0);
    assert Shares(tx, live, slots[at := s]) == Shares(tx, live, slots)[at := 0];
  }

  lemma CaptureHolds(tx: Option<nat>, live: seq<File>, base: seq<File>, slots: seq<Slot>,
                     used: seq<byte>, at: nat, s: Slot)
    requires AllHeld(tx, live, base, slots, used) && AllApart(base, slots) && at < |live|
    requires Covered(tx, live[at]) && !slots[at].captured && !slots[at].created
    requires Paired(live[at], base[at])
    requires s == Slot(|used|, if IsRecord(live[at].kind) then live[at].count else 0, true, false)
    ensures AllHeld(tx, live, base, slots[at := s], used + live[at].data)
    ensures AllApart(base, slots[at := s])
  {
    var after, used' := slots[at := s], used + live[at].data;
    forall i | 0 <= i < |live|
      ensures Held(tx, live[i], base[i], after[i], used')
    {
      assert Held(tx, live[i], base[i], slots[i], used);
      if i != at && slots[i].captured {
        var lo, hi := slots[i].offset, slots[i].offset + |base[i].data|;
        assert used'[lo..hi] == used[lo..hi];
      }
    }
    forall i, j | 0 <= i < j < |base|
      ensures Apart(after[i], |base[i].data|, after[j], |base[j].data|)
    {
      assert Apart(slots[i], |base[i].data|, slots[j], |base[j].data|);
      assert Held(tx, live[i], base[i], slots[i], used) && Held(tx, live[j], base[j], slots[j], used);
    }
  }

  lemma CaptureKeeps(tx: Option<nat>, live: seq<File>, base: seq<File>, slots: seq<Slot>,
                     used: seq<byte>, capacity: nat, at: nat, s: Slot)
    requires JournalOk(tx, live, base, slots, used, capacity) && at < |live|
    requires Covered(tx, live[at]) && !slots[at].captured && !slots[at].created
    requires Paired(live[at], base[at])
    requires s == Slot(|used|, if IsRecord(live[at].kind) then live[at].count else 0, true, false)
    ensures |used| + |live[at].data| <= capacity
    ensures JournalOk(tx, live, base, slots[at := s], used + live[at].data, capacity)
  {
    hide AllApart, Total, Held;
    CaptureRoom(tx, live, base, slots, used, capacity, at, s);
    CaptureHolds(tx, live, base, slots, used, at, s);
  }

  /** `used` with the octets [lo, hi) wiped. */
  function Wiped(used: seq<byte>, lo: nat, hi: nat): (w: seq<byte>)
    requires lo <= hi <= |used|
    ensures |w| == |used|
  {
    used[..lo] + Zeros(hi - lo) + used[hi..]
  }

  function Forgotten(used: seq<byte>, s: Slot, size: nat): (w: seq<byte>)
    ensures |w| == |used|
  {
    if s.captured && s.offset + size <= |used| then Wiped(used, s.offset, s.offset + size) else used
  }

  lemma ForgottenKeeps(used: seq<byte>, s: Slot, m: nat, t: Slot, n: nat)
    requires t.captured && t.offset + n <= |used| && Apart(s, m, t, n)
    ensures Forgotten(used, s, m)[t.offset..t.offset + n] == used[t.offset..t.offset + n]
  {
  }

  function Shifted(slots: seq<Slot>, at: nat): (t: seq<Slot>)
    requires at < |slots| == MAX_FILES
    ensures |t| == MAX_FILES
    ensures forall k :: 0 <= k < MAX_FILES ==>
      t[k] == if k < at then slots[k] else if k + 1 < MAX_FILES then slots[k + 1] else EMPTY
  {
    slots[..at] + slots[at + 1..] + [EMPTY]
  }

  /** Forgetting one preimage leaves every other entry as it was. */
  lemma EntrySurvives(tx: Option<nat>, f: File, b: File, t: Slot, used: seq<byte>, s: Slot, size: nat)
    requires Held(tx, f, b, t, used) && Apart(s, size, t, |b.data|)
    ensures Held(tx, f, b, t, Forgotten(used, s, size))
  {
    hide Forgotten;
    if t.captured { ForgottenKeeps(used, s, size, t, |b.data|); }
  }

  lemma RemoveHolds(tx: Option<nat>, live: seq<File>, base: seq<File>, slots: seq<Slot>, used: seq<byte>, at: nat)
    requires AllHeld(tx, live, base, slots, used) && AllApart(base, slots) && at < |live|
    ensures AllHeld(tx, Without(live, at), Without(base, at), Shifted(slots, at),
                    Forgotten(used, slots[at], |base[at].data|))
  {
    hide Held, Forgotten, Apart;
    var live', base', after := Without(live, at), Without(base, at), Shifted(slots, at);
    var used' := Forgotten(used, slots[at], |base[at].data|);
    forall i | 0 <= i < |live'|
      ensures Held(tx, live'[i], base'[i], after[i], used')
    {
      var k := if i < at then i else i + 1;
      assert Held(tx, live[k], base[k], slots[k], used);
      ApartFrom(base, slots, at, k);
      EntrySurvives(tx, live[k], base[k], slots[k], used, slots[at], |base[at].data|);
    }
  }

  lemma ApartFrom(base: seq<File>, slots: seq<Slot>, i: nat, j: nat)
    requires AllApart(base, slots) && i < |base| && j < |base| && i != j
    ensures Apart(slots[i], |base[i].data|, slots[j], |base[j].data|)
  {
    assert i < j ==> Apart(slots[i], |base[i].data|, slots[j], |base[j].data|);
    assert j < i ==> Apart(slots[j], |base[j].data|, slots[i], |base[i].data|);
  }

  lemma RemoveApart(base: seq<File>, slots: seq<Slot>, at: nat)
    requires AllApart(base, slots) && at < |base| <= |slots| == MAX_FILES
    ensures AllApart(Without(base, at), Shifted(slots, at))
  {
    hide Apart;
    var base', after := Without(base, at), Shifted(slots, at);
    forall i, j | 0 <= i < j < |base'|
      ensures Apart(after[i], |base'[i].data|, after[j], |base'[j].data|)
    {
      var k, l := if i < at then i else i + 1, if j < at then j else j + 1;
      assert Apart(slots[k], |base[k].data|, slots[l], |base[l].data|);
    }
  }

  lemma RemoveRoom(tx: Option<nat>, live: seq<File>, slots: seq<Slot>, at: nat)
    requires |live| <= |slots| == MAX_FILES && at < |live|
    ensures Total(Shares(tx, Without(live, at), Shifted(slots, at))) <= Total(Shares(tx, live, slots))
  {
    hide Share, Total;
    TotalWithout(Shares(tx, live, slots), at);
    assert Shares(tx, Without(live, at), Shifted(slots, at)) == Without(Shares(tx, live, slots), at);
  }

  lemma RemoveKeeps(tx: Option<nat>, live: seq<File>, base: seq<File>, slots: seq<Slot>,
                    used: seq<byte>, capacity: nat, at: nat)
    requires JournalOk(tx, live, base, slots, used, capacity) && at < |live|
    requires Paired(live[at], base[at])
    ensures JournalOk(tx, Without(live, at), Without(base, at), Shifted(slots, at),
                      Forgotten(used, slots[at], |live[at].data|), capacity)
    ensures !slots[at].captured ==> Forgotten(used, slots[at], |live[at].data|) == used
  {
    hide AllApart, Total, Held;
    RemoveHolds(tx, live, base, slots, used, at);
    RemoveApart(base, slots, at);
    RemoveRoom(tx, live, slots, at);
  }

  lemma InsertHolds(tx: Option<nat>, live: seq<File>, base: seq<File>, slots: seq<Slot>, used: seq<byte>, f: File)
    requires AllHeld(tx, live, base, slots, used) && AllApart(base, slots) && |live| < MAX_FILES
    requires !f.pending && f.data == Zeros(|f.data|) && f.count == 0
    ensures AllHeld(tx, live + [f], base + [f], slots[|live| := EMPTY.(created := Covered(tx, f))], used)
    ensures AllApart(base + [f], slots[|live| := EMPTY.(created := Covered(tx, f))])
  {
    var after := slots[|live| := EMPTY.(created := Covered(tx, f))];
    assert Held(tx, f, f, after[|live|], used);
    hide Held;
    forall i | 0 <= i < |live + [f]|
      ensures Held(tx, (live + [f])[i], (base + [f])[i], after[i], used)
    {
      assert i < |live| ==> Held(tx, live[i], base[i], slots[i], used);
    }
    forall i, j | 0 <= i < j < |base + [f]|
      ensures Apart(after[i], |(base + [f])[i].data|, after[j], |(base + [f])[j].data|)
    {
      assert j < |base| ==> Apart(slots[i], |base[i].data|, slots[j], |base[j].data|);
    }
  }

  lemma InsertRoom(tx: Option<nat>, live: seq<File>, slots: seq<Slot>, f: File)
    requires |live| < |slots| == MAX_FILES
    ensures Total(Shares(tx, live + [f], slots[|live| := EMPTY.(created := Covered(tx, f))]))
            == Total(Shares(tx, live, slots))
  {
    TotalPush(Shares(tx, live, slots), 0);
    assert Shares(tx, live + [f], slots[|live| := EMPTY.(created := Covered(tx, f))]) == Shares(tx, live, slots) + [0];
  }

  lemma InsertKeeps(tx: Option<nat>, live: seq<File>, base: seq<File>, slots: seq<Slot>,
                    used: seq<byte>, capacity: nat, f: File)
    requires JournalOk(tx, live, base, slots, used, capacity) && |live| < MAX_FILES
    requires !f.pending && f.data == Zeros(|f.data|) && f.count == 0
    ensures JournalOk(tx, live + [f], base + [f], slots[|live| := EMPTY.(created := Covered(tx, f))], used, capacity)
    ensures slots[|live|] == EMPTY && forall k :: |live| <= k < MAX_FILES ==> slots[k] == EMPTY
  {
    hide AllApart, Total, Held;
    InsertHolds(tx, live, base, slots, used, f);
    InsertRoom(tx, live, slots, f);
  }

  lemma HeldAt(tx: Option<nat>, live: seq<File>, base: seq<File>, slots: seq<Slot>,
               used: seq<byte>, capacity: nat, i: nat)
    requires JournalOk(tx, live, base, slots, used, capacity) && i < |live|
    ensures Held(tx, live[i], base[i], slots[i], used)
  {
  }

  lemma LiveFits(c: Copies, slots: seq<Slot>, tx: Option<nat>, used: seq<byte>, capacity: nat)
    requires Ok(c) && JournalOk(tx, c.live, c.base, slots, used, capacity)
    ensures |c.live| == |c.base| <= |slots| == MAX_FILES
    ensures forall i :: 0 <= i < |c.live| ==> Paired(c.live[i], c.base[i])
  {
  }

  /** Changing one live file (and perhaps its base, when that is in no journal). */
  lemma WriteHolds(tx: Option<nat>, live: seq<File>, base: seq<File>, slots: seq<Slot>,
                   used: seq<byte>, capacity: nat, at: nat, f: File, b: File)
    requires JournalOk(tx, live, base, slots, used, capacity) && at < |live|
    requires f.app == live[at].app && f.kind == live[at].kind && |f.data| == |live[at].data|
    requires |b.data| == |base[at].data|
    requires b == base[at] || !Covered(tx, f)
    requires f.pending ==> slots[at].captured || slots[at].created
    ensures JournalOk(tx, live[at := f], base[at := b], slots, used, capacity)
  {
    forall i | 0 <= i < |live|
      ensures Held(tx, live[at := f][i], base[at := b][i], slots[i], used)
    {
      assert Held(tx, live[i], base[i], slots[i], used);
    }
    forall i, j | 0 <= i < j < |base|
      ensures Apart(slots[i], |base[at := b][i].data|, slots[j], |base[at := b][j].data|)
    {
      assert Apart(slots[i], |base[i].data|, slots[j], |base[j].data|);
    }
    assert Shares(tx, live[at := f], slots) == Shares(tx, live, slots);
  }

  lemma {:induction false} TotalPrefix(w: seq<nat>, n: nat)
    requires n <= |w|
    ensures Total(w[..n]) <= Total(w)
    ensures n < |w| ==> Total(w[..n + 1]) == Total(w[..n]) + w[n]
    decreases |w| - n
  {
    if n < |w| {
      assert w[..n + 1][..n] == w[..n];
      TotalPrefix(w, n + 1);
    } else {
      assert w[..n] == w;
    }
  }

  /** The file an abort writes back from the journal. */
  function Restored(f: File, s: Slot, pool: seq<byte>): File
    requires f.pending && s.captured && !s.created ==> s.offset + |f.data| <= |pool|
  {
    var g := f.(pending := false);
    if !f.pending || !Journaled(f.kind) then g
    else if s.created then g.(data := Zeros(|f.data|), count := if IsRecord(f.kind) then 0 else f.count)
    else if s.captured then
      g.(data := pool[s.offset..s.offset + |f.data|], count := if IsRecord(f.kind) then s.count else f.count)
    else g
  }

  lemma RestoredIsBase(tx: Option<nat>, f: File, b: File, s: Slot, pool: seq<byte>)
    requires Held(tx, f, b, s, pool) && Paired(f, b)
    requires f.pending ==> Covered(tx, f)
    ensures f.pending && s.captured && !s.created ==> s.offset + |f.data| <= |pool|
    ensures Restored(f, s, pool) == b.(value := f.value)
  {
  }

  /** With no transaction open and the journal cleared, the invariant asks nothing. */
  lemma ClosedJournal(live: seq<File>, base: seq<File>, slots: seq<Slot>, capacity: nat)
    requires |live| == |base| <= |slots| == MAX_FILES
    requires forall i :: 0 <= i < |live| ==> !live[i].pending
    requires forall i :: 0 <= i < MAX_FILES ==> slots[i] == EMPTY
    ensures JournalOk(None, live, base, slots, [], capacity)
  {
  }
}
