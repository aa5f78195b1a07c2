/** The emulator's files with the transaction journal as it is kept in memory. */
module JournaledCard {
  import opened Bytes
  import opened Limits
  import opened TwoCopies
  import opened TransactionJournal
  import opened FileRuns
  import V = ValueFiles

  class Card {
    var files: seq<File>
    var selected: nat
    var dirty: bool

    var active: bool
    var journalApp: nat
    var journalDirty: bool
    var pool: array<byte>
    var poolLength: nat
    const slots: array<Slot>

    /** The base copy nobody stores. */
    ghost var base: seq<File>
    ghost var baseDirty: bool

    function Tx(): Option<nat>
      reads this
    {
      if active then Some(journalApp) else None
    }

    ghost function View(): Copies
      reads this
    {
      Copies(files, base, active, selected, dirty, baseDirty)
    }

    predicate Cleared()
      reads slots
    {
      forall i :: 0 <= i < slots.Length ==> slots[i] == EMPTY
    }

    ghost predicate Valid()
      reads this, slots, pool
    {
      && slots.Length == MAX_FILES && poolLength <= pool.Length
      && Ok(View())
      && JournalOk(Tx(), files, base, slots[..], pool[..poolLength], pool.Length)
      && (active ==> journalApp == selected && journalDirty == baseDirty)
      && (!active ==> Cleared() && poolLength == 0)
    }

    constructor ()
      ensures Valid() && fresh(slots) && fresh(pool)
      ensures View() == Copies([], [], false, 0, false, false)
    {
      files, selected, dirty, active, journalApp, journalDirty := [], 0, false, false, 0, false;
      pool, poolLength := new byte[0], 0;
      slots := new Slot[MAX_FILES](_ => EMPTY);
      base, baseDirty := [], false;
    }

    // ---- Opening a transaction ------------------------------------------------------

    /** The octets of every file a transaction on the selected application may touch. */
    method JournalRoom() returns (capacity: nat, fits: bool)
      requires Valid() && !active
      ensures fits && capacity == Total(Shares(Some(selected), files, slots[..]))
    {
      hide JournalOk, Ok;
      OpenedOk(View());
      capacity, fits := 0, true;
      ghost var shares := Shares(Some(selected), files, slots[..]);
      FreshJournal(selected, files, base, slots[..]);
      for i := 0 to |files|
        invariant fits && capacity == Total(shares[..i])
      {
        TotalPrefix(shares, i);
        TotalPrefix(shares, i + 1);
        if files[i].app == selected && Journaled(files[i].kind) {
          if |files[i].data| > FILE_POOL_SIZE - capacity { fits := false; }
          capacity := capacity + |files[i].data|;
        }
      }
      assert shares[..|files|] == shares;
    }

    /** Opens a transaction unless one is open, with journal room for every file it
        may have to capture. */
    method Begin(memory: bool) returns (ok: bool)
      requires Valid()
      modifies this`active, this`journalApp, this`journalDirty, this`pool, this`poolLength, slots
      ensures Valid() && (pool == old(pool) || fresh(pool))
      ensures ok == (old(active) || memory)
      ensures View() == if ok then Opened(old(View())) else old(View())
    {
      hide Ok, JournalOk, Total;
      OpenedOk(View());
      if active { return true; }
      var capacity, fits := JournalRoom();
      FreshJournal(selected, files, base, slots[..]);
      if !fits || !memory { return false; }
      pool := new byte[if capacity == 0 then 1 else capacity];
      poolLength, active, journalApp, journalDirty := 0, true, selected, dirty;
      ClearSlots();
      assert slots[..] == old(slots[..]);
      assert pool[..poolLength] == [];
      return true;
    }

    method ClearSlots()
      modifies slots
      ensures Cleared()
    {
      for i := 0 to slots.Length
        invariant forall k :: 0 <= k < i ==> slots[k] == EMPTY
      {
        slots[i] := EMPTY;
      }
    }

    // ---- Capturing a preimage -------------------------------------------------------

    /** Makes sure the file can be put back. It is refused only for a file the
        transaction does not cover: room in the journal never runs out. */
    method Capture(at: nat) returns (ok: bool)
      requires Valid()
      modifies this`poolLength, slots, pool
      ensures Valid() && View() == old(View())
      ensures ok == (!active || (at < |files| && Covered(Tx(), files[at])))
      ensures ok && active ==> slots[at].captured || slots[at].created
    {
      hide JournalOk, AllHeld, AllApart, Total, Ok;
      LiveFits(View(), slots[..], Tx(), pool[..poolLength], pool.Length);
      if !active { return true; }
      if at >= |files| || !Covered(Tx(), files[at]) { return false; }
      if slots[at].created || slots[at].captured { return true; }
      var f := files[at];
      var s := Slot(poolLength, if IsRecord(f.kind) then f.count else 0, true, false);
      ghost var used, before := pool[..poolLength], slots[..];
      CaptureKeeps(Tx(), files, base, before, used, pool.Length, at, s);
      if |f.data| > pool.Length || poolLength > pool.Length - |f.data| { return false; }
      CopyIn(f.data);
      slots[at] := s;
      assert slots[..] == before[at := s];
      return true;
    }

    method CopyIn(data: seq<byte>)
      requires poolLength + |data| <= pool.Length
      modifies this`poolLength, pool
      ensures poolLength == old(poolLength) + |data|
      ensures pool[..poolLength] == old(pool[..poolLength]) + data
    {
      forall k | 0 <= k < |data| {
        pool[poolLength + k] := data[k];
      }
      poolLength := poolLength + |data|;
      assert pool[..poolLength] == old(pool[..poolLength]) + data;
    }

    /** A command that writes a journaled file. */
    method Stage(at: nat, data: seq<byte>, count: nat, marks: bool, memory: bool) returns (ok: bool)
      requires Valid() && Allowed(View(), Command.Stage(at, data, count, marks, memory))
      modifies this, slots, pool
      ensures Valid() && (pool == old(pool) || fresh(pool))
      ensures ok == (old(active) || memory)
      ensures View() == Effect(old(View()), Command.Stage(at, data, count, marks, memory))
    {
      hide JournalOk, Total, Ok, Paired;
      EffectOk(View(), Command.Stage(at, data, count, marks, memory));
      PairedAt(View(), at);
      OpenedOk(View());
      ok := Begin(memory);
      if !ok { return; }
      ok := Capture(at);
      var f := files[at].(data := data, count := count, pending := true);
      WriteHolds(Tx(), files, base, slots[..], pool[..poolLength], pool.Length, at, f, base[at]);
      assert base[at := base[at]] == base;
      files, dirty := files[at := f], dirty || marks;
    }

    /** A command that journals a file and is then refused. */
    method Touch(at: nat, memory: bool) returns (ok: bool)
      requires Valid() && Allowed(View(), Command.Touch(at, memory))
      modifies this, slots, pool
      ensures Valid() && (pool == old(pool) || fresh(pool))
      ensures ok == (old(active) || memory)
      ensures View() == Effect(old(View()), Command.Touch(at, memory))
    {
      hide JournalOk, Ok, Total;
      ok := Begin(memory);
      if ok { ok := Capture(at); }
    }

    /** Credits or debits a value file. The change waits in the file itself. */
    method ChangeValue(at: nat, move: V.Move, amount: int, mac: bool) returns (answer: V.Answer)
      requires Valid() && Allowed(View(), Command.ChangeValue(at, move, amount, mac))
      modifies this
      ensures Valid() && pool == old(pool)
      ensures answer == V.AnswerTo(old(files)[at].value, move, amount, mac)
      ensures View() == Effect(old(View()), Command.ChangeValue(at, move, amount, mac))
    {
      hide JournalOk, Total, Ok;
      EffectOk(View(), Command.ChangeValue(at, move, amount, mac));
      PairedAt(View(), at);
      JournaledPending(View(), at);
      var f := files[at];
      answer := V.AnswerTo(f.value, move, amount, mac);
      if answer == V.Ok {
        f := f.(value := V.Moved(f.value, move, amount));
        assert !files[at].pending;
        WriteHolds(Tx(), files, base, slots[..], pool[..poolLength], pool.Length, at, f, base[at]);
      }
      assert base[at := base[at]] == base && files[at := files[at]] == files;
      files := files[at := f];
    }

    /** A write to a standard file takes effect at once, in both copies. */
    method WriteThrough(at: nat, data: seq<byte>)
      requires Valid() && Allowed(View(), Command.WriteThrough(at, data))
      modifies this
      ensures Valid() && pool == old(pool)
      ensures View() == Effect(old(View()), Command.WriteThrough(at, data))
    {
      hide JournalOk, Total, Ok;
      EffectOk(View(), Command.WriteThrough(at, data));
      PairedAt(View(), at);
      JournaledPending(View(), at);
      var f := files[at].(data := data);
      ghost var b := base[at].(data := data);
      WriteHolds(Tx(), files, base, slots[..], pool[..poolLength], pool.Length, at, f, b);
      if active { journalDirty := true; }
      files, dirty := files[at := f], true;
      base, baseDirty := base[at := b], true;
    }

    // ---- Creating and deleting under an open transaction ----------------------------

    method InsertSlot(at: nat, s: Slot)
      requires at < slots.Length == MAX_FILES
      modifies slots
      ensures slots[..] == old(slots[..at]) + [s] + old(slots[at..MAX_FILES - 1])
    {
      var i := MAX_FILES - 1;
      while i > at
        invariant at <= i < MAX_FILES
        invariant forall k :: 0 <= k <= i ==> slots[k] == old(slots[k])
        invariant forall k :: i < k < MAX_FILES ==> slots[k] == old(slots[k - 1])
      {
        slots[i] := slots[i - 1];
        i := i - 1;
      }
      slots[at] := s;
    }

    method RemoveSlot(at: nat)
      requires at < slots.Length == MAX_FILES
      modifies slots
      ensures slots[..] == Shifted(old(slots[..]), at)
    {
      for i := at to MAX_FILES - 1
        invariant forall k :: 0 <= k < at || i <= k < MAX_FILES ==> slots[k] == old(slots[k])
        invariant forall k :: at <= k < i ==> slots[k] == old(slots[k + 1])
      {
        slots[i] := slots[i + 1];
      }
      slots[MAX_FILES - 1] := EMPTY;
    }

    method WipePreimage(s: Slot, size: nat)
      requires poolLength <= pool.Length
      modifies pool
      ensures pool[..poolLength] == Forgotten(old(pool[..poolLength]), s, size)
    {
      if s.captured && s.offset <= poolLength && size <= poolLength - s.offset {
        for i := 0 to size
          invariant forall k :: 0 <= k < pool.Length ==>
            pool[k] == if s.offset <= k < s.offset + i then 0 else old(pool[k])
        {
          pool[s.offset + i] := 0;
        }
      }
    }

    method Create(number: byte, kind: Kind, size: nat, value: V.Value)
      requires Valid() && Allowed(View(), Command.Create(number, kind, size, value))
      modifies this, slots, pool
      ensures Valid() && (pool == old(pool) || fresh(pool))
      ensures View() == Effect(old(View()), Command.Create(number, kind, size, value))
    {
      hide JournalOk, Ok, Total;
      EffectOk(View(), Command.Create(number, kind, size, value));
      AbortedOk(View());
      if kind == TransactionMac { var _ := Abort(); }
      AddFile(Fresh(selected, number, kind, size, value));
    }

    method Delete(at: nat)
      requires Valid() && Allowed(View(), Command.Delete(at))
      modifies this, slots, pool
      ensures Valid() && (pool == old(pool) || fresh(pool))
      ensures View() == Effect(old(View()), Command.Delete(at))
    {
      if files[at].kind == TransactionMac { var _ := Abort(); }
      DropFile(at);
    }

    method AddFile(f: File)
      requires Valid() && |files| < MAX_FILES && Ok(Added(View(), f))
      requires !f.pending && f.data == Zeros(|f.data|) && f.count == 0
      modifies this, slots
      ensures Valid() && pool == old(pool)
      ensures View() == Added(old(View()), f)
    {
      hide JournalOk, AllHeld, AllApart, Total, Ok;
      ghost var before := slots[..];
      var at := |files|;
      LiveFits(View(), before, Tx(), pool[..poolLength], pool.Length);
      InsertKeeps(Tx(), files, base, before, pool[..poolLength], pool.Length, f);
      files, base := files + [f], base + [f];
      if active {
        InsertSlot(at, EMPTY.(created := Covered(Tx(), f)));
        journalDirty := true;
      }
      assert slots[..] == before[at := EMPTY.(created := Covered(Tx(), f))];
      dirty, baseDirty := true, true;
    }

    method DropFile(at: nat)
      requires Valid() && at < |files|
      modifies this, slots, pool
      ensures Valid() && pool == old(pool)
      ensures View() == Removed(old(View()), at)
    {
      hide JournalOk, Total, Forgotten, Ok;
      PairedAt(View(), at);
      LiveFits(View(), slots[..], Tx(), pool[..poolLength], pool.Length);
      RemovedOk(View(), at);
      RemoveKeeps(Tx(), files, base, slots[..], pool[..poolLength], pool.Length, at);
      if active {
        WipePreimage(slots[at], |files[at].data|);
        RemoveSlot(at);
        journalDirty := true;
      } else {
        assert Shifted(slots[..], at) == slots[..] && pool[..poolLength] == [];
      }
      files, base := Without(files, at), Without(base, at);
      dirty, baseDirty := true, true;
    }

    // ---- Ending a transaction -------------------------------------------------------

    /** Puts every file back as it was, whatever was captured, created, deleted or credited
        since. */
    method Abort() returns (changed: bool)
      requires Valid()
      modifies this, slots
      ensures Valid() && (pool == old(pool) || fresh(pool))
      ensures changed == (old(active) || exists i :: 0 <= i < |old(files)| && old(files)[i].value.pending)
      ensures View() == Aborted(old(View()))
    {
      hide JournalOk, Total, Ok;
      ghost var was := View();
      AbortedOk(was);
      changed := AbortJournal();
      LeftValues(was, files);
      var dropped := DropValues();
      changed := changed || dropped;
      OpenedOk(Aborted(was));
      ClosedJournal(files, base, slots[..], pool.Length);
      assert pool[..poolLength] == [];
    }

    /** Ends the journal, if one is open, and puts back what it held. */
    method AbortJournal() returns (changed: bool)
      requires Valid()
      modifies this, slots
      ensures slots.Length == MAX_FILES && !active && Cleared() && poolLength == 0 <= pool.Length
      ensures (pool == old(pool) || fresh(pool)) && changed == old(active)
      ensures base == old(base) && baseDirty == old(baseDirty) && selected == old(selected) && dirty == baseDirty
      ensures files == BaseWithValues(old(base), old(files))
    {
      hide JournalOk, Total, Paired;
      if !active {
        UnstagedIsBase(View());
        return false;
      }
      var valid := PreimagesUsable();
      assert valid;
      RestoreFiles();
      dirty := journalDirty;
      ClearJournal();
      return true;
    }

    /** Forgets the pending changes of the selected application's value files. */
    method DropValues() returns (changed: bool)
      modifies this`files
      ensures files == ValuesDropped(old(files), selected)
      ensures changed <==> exists i :: 0 <= i < |old(files)| && Drops(old(files)[i], selected)
    {
      changed := false;
      for i := 0 to |files|
        invariant |files| == |old(files)|
        invariant forall k :: 0 <= k < i ==> files[k] == ValueDropped(old(files)[k], selected)
        invariant forall k :: i <= k < |files| ==> files[k] == old(files)[k]
        invariant changed <==> exists k :: 0 <= k < i && Drops(old(files)[k], selected)
      {
        if files[i].app == selected && files[i].kind == Value && files[i].value.pending {
          files := files[i := files[i].(value := V.Dropped(files[i].value))];
          changed := true;
        }
      }
    }

    /** The journal can always be trusted, so the fallback that wipes staged files
        instead of restoring them is never reached. */
    method PreimagesUsable() returns (valid: bool)
      requires Valid() && active
      ensures valid
    {
      valid := poolLength <= pool.Length;
      for i := 0 to |files|
        invariant valid
      {
        var f, s := files[i], slots[i];
        assert Held(Tx(), f, base[i], s, pool[..poolLength]) && Paired(f, base[i]);
        if f.app == journalApp && f.pending && Journaled(f.kind) && !s.created {
          if !s.captured || s.offset > poolLength || |f.data| > poolLength - s.offset {
            valid := false;
          }
        }
      }
    }

    method RestoreFiles()
      requires Valid() && active
      modifies this`files
      ensures files == BaseWithValues(base, old(files))
    {
      hide JournalOk, AllHeld, AllApart, Total, Restored;
      ghost var staged := files;
      for i := 0 to |files|
        invariant |files| == |base|
        invariant forall k :: i <= k < |files| ==> files[k] == staged[k]
        invariant forall k :: 0 <= k < i ==> files[k] == base[k].(value := staged[k].value)
      {
        var f, s := files[i], slots[i];
        HeldAt(Tx(), staged, base, slots[..], pool[..poolLength], pool.Length, i);
        RestoredIsBase(Tx(), f, base[i], s, pool[..poolLength]);
        if f.app == journalApp {
          files := files[i := Restored(f, s, pool[..poolLength])];
        }
      }
    }

    method ClearJournal()
      requires slots.Length == MAX_FILES
      modifies this`active, this`journalApp, this`journalDirty, this`pool, this`poolLength, slots
      ensures !active && Cleared() && poolLength == 0 && fresh(pool)
    {
      active, journalApp, journalDirty := false, 0, false;
      pool, poolLength := new byte[0], 0;
      ClearSlots();
    }

    method Publish()
      requires Valid()
      modifies this, slots
      ensures Valid() && (pool == old(pool) || fresh(pool))
      ensures View() == Published(old(View()))
      ensures |files| == |old(files)| && forall i :: 0 <= i < |files| ==>
        && base[i] == files[i] && files[i].data == old(files)[i].data && files[i].count == old(files)[i].count
        && !files[i].pending && !files[i].value.pending && files[i].value.current == V.Staged(old(files)[i].value)
    {
      hide JournalOk, Total, Ok, Settled;
      ghost var was := View();
      PublishedOk(View());
      OpenedOk(Published(View()));
      SettledElsewhere(View());
      SettleFiles();
      assert files == SettledAll(old(files));
      if active && journalApp == selected { ClearJournal(); }
      dirty, baseDirty, base := true, true, files;
      assert pool[..poolLength] == [];
      ClosedJournal(files, base, slots[..], pool.Length);
      forall i | 0 <= i < |was.live|
        ensures files[i].data == was.live[i].data && files[i].count == was.live[i].count
        ensures !files[i].pending && !files[i].value.pending && files[i].value.current == V.Staged(was.live[i].value)
      {
        PublishedFiles(was, i);
        PairedAt(was, i);
      }
    }

    /** Makes what is pending in the selected application's files final. */
    method SettleFiles()
      modifies this`files
      ensures |files| == |old(files)|
      ensures forall k :: 0 <= k < |files| ==> files[k] == SettledFor(old(files)[k], selected)
    {
      for i := 0 to |files|
        invariant |files| == |old(files)|
        invariant forall k :: 0 <= k < i ==> files[k] == SettledFor(old(files)[k], selected)
        invariant forall k :: i <= k < |files| ==> files[k] == old(files)[k]
      {
        if files[i].app == selected {
          if files[i].kind == Value && files[i].value.pending {
            files := files[i := files[i].(value := V.Applied(files[i].value))];
          }
          files := files[i := files[i].(pending := false)];
        }
      }
    }

    method Select(app: nat)
      requires Valid()
      modifies this, slots
      ensures Valid() && (pool == old(pool) || fresh(pool))
      ensures View() == Aborted(old(View())).(selected := app)
    {
      hide Ok, JournalOk, Total;
      SelectedOk(View(), app);
      var _ := Abort();
      selected := app;
      OpenedOk(View());
      ClosedJournal(files, base, slots[..], pool.Length);
      assert pool[..poolLength] == [];
    }

    // ---- The committed view ---------------------------------------------------------

    /** What readers outside the transaction are shown. */
    method CommittedData(at: nat) returns (data: Option<seq<byte>>)
      requires Valid()
      ensures data == if at < |files| then Some(base[at].data) else None
    {
      if at >= |files| { return None; }
      var f, s := files[at], slots[at];
      assert Held(Tx(), f, base[at], s, pool[..poolLength]) && Paired(f, base[at]);
      if !Covered(Tx(), f) { return Some(f.data); }
      if s.created { return Some(Zeros(|f.data|)); }
      if !s.captured { return Some(f.data); }
      return Some(pool[..poolLength][s.offset..s.offset + |f.data|]);
    }

    method CommittedCount(at: nat) returns (count: nat)
      requires Valid()
      ensures count == if at < |files| then base[at].count else 0
    {
      if at >= |files| { return 0; }
      var f, s := files[at], slots[at];
      assert Held(Tx(), f, base[at], s, pool[..poolLength]) && Paired(f, base[at]);
      if !Covered(Tx(), f) || !IsRecord(f.kind) { return f.count; }
      if s.created { return 0; }
      if s.captured { return s.count; }
      return f.count;
    }

    // ---- Runs -----------------------------------------------------------------------

    method Execute(cmd: Command)
      requires Valid() && Allowed(View(), cmd)
      modifies this, slots, pool
      ensures Valid() && (pool == old(pool) || fresh(pool))
      ensures View() == Effect(old(View()), cmd)
    {
      hide Ok, JournalOk, Allowed;
      match cmd
      case Stage(at, data, count, marks, memory) => var _ := Stage(at, data, count, marks, memory);
      case Touch(at, memory) => var _ := Touch(at, memory);
      case ChangeValue(at, move, amount, mac) => var _ := ChangeValue(at, move, amount, mac);
      case WriteThrough(at, data) => WriteThrough(at, data);
      case Create(number, kind, size, value) => Create(number, kind, size, value);
      case Delete(at) => Delete(at);
      case Abort => var _ := Abort();
      case Publish => Publish();
      case Select(app) => Select(app);
    }
  }

  // ---- Files and their pending values ---------------------------------------------------

  function BaseWithValues(base: seq<File>, files: seq<File>): (r: seq<File>)
    requires |base| == |files|
    ensures |r| == |base| && forall i :: 0 <= i < |r| ==> r[i] == base[i].(value := files[i].value)
  {
    seq(|base|, i requires 0 <= i < |base| => base[i].(value := files[i].value))
  }

  predicate Drops(f: File, selected: nat)
  {
    f.app == selected && f.kind == Value && f.value.pending
  }

  function ValueDropped(f: File, selected: nat): File
  {
    if Drops(f, selected) then f.(value := V.Dropped(f.value)) else f
  }

  function ValuesDropped(files: seq<File>, selected: nat): (r: seq<File>)
    ensures |r| == |files| && forall i :: 0 <= i < |r| ==> r[i] == ValueDropped(files[i], selected)
  {
    seq(|files|, i requires 0 <= i < |files| => ValueDropped(files[i], selected))
  }

  lemma JournaledPending(c: Copies, at: nat)
    requires Ok(c) && at < |c.live| && !Journaled(c.live[at].kind)
    ensures !c.live[at].pending
  {
  }

  lemma UnstagedIsBase(c: Copies)
    requires Ok(c) && !c.open
    ensures |c.live| == |c.base| && c.live == BaseWithValues(c.base, c.live) && c.dirty == c.baseDirty
  {
    forall i | 0 <= i < |c.live|
      ensures c.live[i] == c.base[i].(value := c.live[i].value)
    {
      assert Paired(c.live[i], c.base[i]);
    }
  }

  /** Once the journal has put the data back, only pending values are left to forget. */
  lemma LeftValues(c: Copies, files: seq<File>)
    requires Ok(c) && |c.base| == |c.live| && files == BaseWithValues(c.base, c.live)
    ensures ValuesDropped(files, c.selected) == c.base
    ensures forall i :: 0 <= i < |files| ==> Drops(files[i], c.selected) == c.live[i].value.pending
  {
    forall i | 0 <= i < |files|
      ensures ValueDropped(files[i], c.selected) == c.base[i] && Drops(files[i], c.selected) == c.live[i].value.pending
    {
      assert Paired(c.live[i], c.base[i]);
    }
  }

  function SettledFor(f: File, selected: nat): File
  {
    if f.app != selected then f
    else if f.kind == Value && f.value.pending then f.(value := V.Applied(f.value), pending := false)
    else f.(pending := false)
  }

  /** Files of other applications have nothing pending, and only value files have a pending
      value. */
  lemma SettledElsewhere(c: Copies)
    requires Ok(c)
    ensures forall i :: 0 <= i < |c.live| ==> Settled(c.live[i]) == SettledFor(c.live[i], c.selected)
  {
  }

  /** Every run of the journaled card is a run of the two-copy card. */
  method RunCard(card: Card, cmds: seq<Command>)
    requires card.Valid() && AllowedRun(card.View(), cmds)
    modifies card, card.slots, card.pool
    ensures card.Valid()
    ensures card.View() == Run(old(card.View()), cmds)
    ensures forall at: nat :: at < |old(card.files)| && Place(at, cmds).Some? ==>
      && Place(at, cmds).value < |card.files|
      && card.files[Place(at, cmds).value].value
         == V.AfterAll(V.Opening(old(card.files)[at].value), Acts(old(card.View()), at, cmds)).v
    ensures |old(card.files)| == |old(card.base)| && forall at: nat :: at < |old(card.files)| && Place(at, cmds).Some? ==>
      && Place(at, cmds).value < |card.base|
      && RegisterOf(card.files[Place(at, cmds).value], card.base[Place(at, cmds).value])
         == WrittenAll(RegisterOf(old(card.files)[at], old(card.base)[at]), Writes(old(card.View()), at, cmds))
  {
    hide V.AfterAll, WrittenAll, RegisterOf;
    LengthsPaired(card.View());
    ghost var start := card.View();
    var i := 0;
    while i < |cmds|
      invariant i <= |cmds| && card.Valid() && (card.pool == old(card.pool) || fresh(card.pool))
      invariant AllowedRun(card.View(), cmds[i..])
      invariant Run(card.View(), cmds[i..]) == Run(old(card.View()), cmds)
    {
      assert cmds[i..][0] == cmds[i] && cmds[i..][1..] == cmds[i + 1..];
      card.Execute(cmds[i]);
      i := i + 1;
    }
    forall at: nat | at < |start.live| && Place(at, cmds).Some?
      ensures Place(at, cmds).value < |card.files|
      ensures card.files[Place(at, cmds).value].value == V.AfterAll(V.Opening(start.live[at].value), Acts(start, at, cmds)).v
    {
      RunFollows(start, at, cmds, V.Opening(start.live[at].value));
    }
    forall at: nat | at < |start.live| && Place(at, cmds).Some?
      ensures Place(at, cmds).value < |card.base|
      ensures RegisterOf(card.files[Place(at, cmds).value], card.base[Place(at, cmds).value])
           == WrittenAll(RegisterOf(start.live[at], start.base[at]), Writes(start, at, cmds))
    {
      RunFollows(start, at, cmds, V.Opening(start.live[at].value));
      RunWrites(start, at, cmds);
    }
  }
}
