/** The meaning of a transaction, with no journal in sight: a card keeps two copies of
    its files, the live one that commands change and the base one that readers see
    and that an abort restores. The journal of `TransactionJournal` never makes the
    second copy, and is proved to behave as if it did. */
module TwoCopies {
  import opened Bytes
  import opened Limits
  import V = ValueFiles

  datatype Kind = StandardData | BackupData | Value | LinearRecord | CyclicRecord | TransactionMac

  datatype File = File(app: nat, number: byte, kind: Kind, data: seq<byte>, count: nat, pending: bool,
                       value: V.Value)

  predicate IsRecord(kind: Kind)
  {
    kind == LinearRecord || kind == CyclicRecord
  }

  /** The kinds whose writes wait for a commit. */
  predicate Journaled(kind: Kind)
  {
    kind == BackupData || IsRecord(kind)
  }

  datatype Copies = Copies(live: seq<File>, base: seq<File>, open: bool, selected: nat, dirty: bool, baseDirty: bool)

  /** A card command as far as files are concerned. `Stage` is a WriteData on a backup
      file or any record command; it opens a transaction, which `memory` says can be
      refused, and `marks` whether it marks the credential dirty at once. `Touch` is
      such a command that is refused after the file was journaled. A value file keeps its
      own pending change, so `ChangeValue` needs no journal. */
  datatype Command =
    | Stage(at: nat, data: seq<byte>, count: nat, marks: bool, memory: bool)
    | Touch(at: nat, memory: bool)
    | ChangeValue(at: nat, move: V.Move, amount: int, mac: bool)
    | WriteThrough(at: nat, data: seq<byte>)
    | Create(number: byte, kind: Kind, size: nat, value: V.Value)
    | Delete(at: nat)
    | Abort
    | Publish
    | Select(app: nat)

  function Without<T>(s: seq<T>, i: nat): (t: seq<T>)
    requires i < |s|
    ensures |t| == |s| - 1
    ensures forall k :: 0 <= k < |t| ==> t[k] == if k < i then s[k] else s[k + 1]
  {
    s[..i] + s[i + 1..]
  }

  // ---- Stored octets ----------------------------------------------------------------

  function Total(w: seq<nat>): nat
  {
    if w == [] then 0 else w[|w| - 1] + Total(w[..|w| - 1])
  }

  lemma {:induction false} TotalChange(w: seq<nat>, i: nat, x: nat)
    requires i < |w|
    ensures Total(w[i := x]) + w[i] == Total(w) + x
  {
    var n := |w| - 1;
    if i < n {
      TotalChange(w[..n], i, x);
      assert w[i := x][..n] == w[..n][i := x];
    } else {
      assert w[i := x][..n] == w[..n];
    }
  }

  lemma {:induction false} TotalWithout(w: seq<nat>, i: nat)
    requires i < |w|
    ensures Total(Without(w, i)) + w[i] == Total(w)
  {
    var n := |w| - 1;
    if i < n {
      TotalWithout(w[..n], i);
      assert Without(w, i)[..n - 1] == Without(w[..n], i);
    } else {
      assert Without(w, i) == w[..n];
    }
  }

  lemma TotalPush(w: seq<nat>, x: nat)
    ensures Total(w + [x]) == Total(w) + x
  {
    assert (w + [x])[..|w|] == w;
  }

  lemma {:induction false} TotalAtMost(v: seq<nat>, w: seq<nat>)
    requires |v| == |w| && forall i :: 0 <= i < |v| ==> v[i] <= w[i]
    ensures Total(v) <= Total(w)
  {
    if v != [] { TotalAtMost(v[..|v| - 1], w[..|w| - 1]); }
  }

  function Lengths(files: seq<File>): (w: seq<nat>)
    ensures |w| == |files|
    ensures forall i :: 0 <= i < |w| ==> w[i] == |files[i].data|
  {
    seq(|files|, i requires 0 <= i < |files| => |files[i].data|)
  }

  // ---- The two copies ---------------------------------------------------------------

  /** A live file and its base: the same file, and identical unless a write is staged. */
  predicate Paired(f: File, b: File)
  {
    && f.app == b.app && f.number == b.number && f.kind == b.kind && |f.data| == |b.data|
    && (!IsRecord(f.kind) ==> f.count == b.count == 0)
    && !b.pending && V.ValueOk(f.value) && b.value == V.Dropped(f.value)
    && (!f.pending ==> f.(value := b.value) == b)
  }

  predicate Ok(c: Copies)
  {
    && |c.live| == |c.base| <= MAX_FILES
    && (forall i :: 0 <= i < |c.live| ==> Paired(c.live[i], c.base[i]))
    && (forall i :: 0 <= i < |c.live| && c.live[i].pending ==>
          c.open && c.live[i].app == c.selected && Journaled(c.live[i].kind))
    && (forall i :: 0 <= i < |c.live| && c.live[i].value.pending ==> c.live[i].app == c.selected && c.live[i].kind == Value)
    && (!c.open ==> c.dirty == c.baseDirty)
    && Total(Lengths(c.live)) <= FILE_POOL_SIZE
  }

  predicate Writable(c: Copies, at: nat)
  {
    at < |c.live| && c.live[at].app == c.selected
  }

  /** What the command's own checks leave to happen. */
  predicate Allowed(c: Copies, cmd: Command)
  {
    match cmd
    case Stage(at, data, count, _, _) =>
      && Writable(c, at) && Journaled(c.live[at].kind) && |data| == |c.live[at].data|
      && (!IsRecord(c.live[at].kind) ==> count == 0)
    case Touch(at, _) => Writable(c, at) && Journaled(c.live[at].kind)
    case ChangeValue(at, _, _, _) => Writable(c, at) && c.live[at].kind == Value
    case WriteThrough(at, data) =>
      Writable(c, at) && c.live[at].kind == StandardData && |data| == |c.live[at].data|
    case Create(_, _, size, value) =>
      |c.live| < MAX_FILES && Total(Lengths(c.live)) + size <= FILE_POOL_SIZE && V.IsNew(value)
    case Delete(at) => Writable(c, at)
    case Abort => true
    case Publish => true
    case Select(_) => true
  }

  function Fresh(app: nat, number: byte, kind: Kind, size: nat, value: V.Value): File
  {
    File(app, number, kind, Zeros(size), 0, false, value)
  }

  function Opened(c: Copies): Copies
  {
    c.(open := true)
  }

  function Aborted(c: Copies): Copies
  {
    c.(live := c.base, open := false, dirty := c.baseDirty)
  }

  function Settled(f: File): File
  {
    f.(pending := false, value := V.Applied(f.value))
  }

  function SettledAll(files: seq<File>): (s: seq<File>)
    ensures |s| == |files|
    ensures forall i :: 0 <= i < |s| ==> s[i] == Settled(files[i])
  {
    seq(|files|, i requires 0 <= i < |files| => Settled(files[i]))
  }

  function Published(c: Copies): Copies
  {
    Copies(SettledAll(c.live), SettledAll(c.live), false, c.selected, true, true)
  }

  function Added(c: Copies, f: File): Copies
  {
    c.(live := c.live + [f], base := c.base + [f], dirty := true, baseDirty := true)
  }

  function Removed(c: Copies, at: nat): Copies
    requires at < |c.live| == |c.base|
  {
    c.(live := Without(c.live, at), base := Without(c.base, at), dirty := true, baseDirty := true)
  }

  function Changed(f: File, move: V.Move, amount: int, mac: bool): File
  {
    if V.AnswerTo(f.value, move, amount, mac) == V.Ok then f.(value := V.Moved(f.value, move, amount)) else f
  }

  function Effect(c: Copies, cmd: Command): Copies
    requires Ok(c) && Allowed(c, cmd)
  {
    match cmd
    case Stage(at, data, count, marks, memory) =>
      if !c.open && !memory then c
      else Opened(c).(live := c.live[at := c.live[at].(data := data, count := count, pending := true)],
                      dirty := c.dirty || marks)
    case Touch(_, memory) => if !c.open && !memory then c else Opened(c)
    case ChangeValue(at, move, amount, mac) => c.(live := c.live[at := Changed(c.live[at], move, amount, mac)])
    case WriteThrough(at, data) =>
      c.(live := c.live[at := c.live[at].(data := data)], base := c.base[at := c.base[at].(data := data)],
         dirty := true, baseDirty := true)
    case Create(number, kind, size, value) =>
      Added(if kind == TransactionMac then Aborted(c) else c, Fresh(c.selected, number, kind, size, value))
    case Delete(at) =>
      Removed(if c.live[at].kind == TransactionMac then Aborted(c) else c, at)
    case Abort => Aborted(c)
    case Publish => Published(c)
    case Select(app) => Aborted(c).(selected := app)
  }

  lemma OpenedOk(c: Copies)
    requires Ok(c)
    ensures Ok(Opened(c))
    ensures !c.open ==> c.dirty == c.baseDirty
    ensures !c.open ==> forall i :: 0 <= i < |c.live| ==> !c.live[i].pending
    ensures |c.live| <= MAX_FILES && Total(Lengths(c.live)) <= FILE_POOL_SIZE
  {
  }

  lemma LengthsPaired(c: Copies)
    requires Ok(c)
    ensures |c.live| == |c.base| && Lengths(c.live) == Lengths(c.base)
  {
  }

  lemma PairedAt(c: Copies, at: nat)
    requires Ok(c) && at < |c.live|
    ensures at < |c.base| && Paired(c.live[at], c.base[at])
  {
  }

  lemma AbortedOk(c: Copies)
    requires Ok(c)
    ensures Ok(Aborted(c)) && |Aborted(c).live| == |c.live|
    ensures Aborted(c).live == Aborted(c).base == c.base
    ensures Lengths(Aborted(c).live) == Lengths(c.live)
  {
    LengthsPaired(c);
    forall i | 0 <= i < |c.base|
      ensures Paired(c.base[i], c.base[i]) && !c.base[i].pending && !c.base[i].value.pending
    {
      assert Paired(c.live[i], c.base[i]);
      V.SettledOk(c.live[i].value);
    }
  }

  lemma AddedOk(c: Copies, f: File)
    requires Ok(c) && |c.live| < MAX_FILES && Total(Lengths(c.live)) + |f.data| <= FILE_POOL_SIZE
    requires !f.pending && (!IsRecord(f.kind) ==> f.count == 0) && V.IsNew(f.value)
    ensures Ok(Added(c, f))
  {
    hide Total;
    TotalPush(Lengths(c.live), |f.data|);
    assert Lengths(c.live + [f]) == Lengths(c.live) + [|f.data|];
    V.NewValueOk(f.value.lower, f.value.upper, f.value.current, f.value.limited);
    assert Paired(f, f);
    hide Paired;
    var e := Added(c, f);
    forall i | 0 <= i < |e.live|
      ensures Paired(e.live[i], e.base[i])
    {
      assert i < |c.live| ==> Paired(c.live[i], c.base[i]);
    }
  }

  lemma RemovedOk(c: Copies, at: nat)
    requires Ok(c) && at < |c.live|
    ensures Ok(Removed(c, at))
  {
    hide Total, Paired;
    TotalWithout(Lengths(c.live), at);
    assert Lengths(Without(c.live, at)) == Without(Lengths(c.live), at);
    var e := Removed(c, at);
    forall i | 0 <= i < |e.live|
      ensures Paired(e.live[i], e.base[i])
      ensures e.live[i].pending ==> e.open && e.live[i].app == e.selected && Journaled(e.live[i].kind)
      ensures e.live[i].value.pending ==> e.live[i].app == e.selected && e.live[i].kind == Value
    {
      var k := if i < at then i else i + 1;
      assert Paired(c.live[k], c.base[k]);
    }
  }

  /** One live file changes, and perhaps its base with it. */
  lemma ChangedOk(c: Copies, at: nat, f: File, b: File)
    requires Ok(c) && at < |c.live| && Paired(f, b) && |f.data| == |c.live[at].data|
    requires f.pending ==> c.open && f.app == c.selected && Journaled(f.kind)
    requires f.value.pending ==> f.app == c.selected && f.kind == Value
    ensures Ok(c.(live := c.live[at := f], base := c.base[at := b]))
    ensures Lengths(c.live[at := f]) == Lengths(c.live)
  {
    hide Total, Paired;
    assert Lengths(c.live[at := f]) == Lengths(c.live);
  }

  lemma ChangedPaired(f: File, b: File, move: V.Move, amount: int, mac: bool)
    requires Paired(f, b)
    ensures Paired(Changed(f, move, amount, mac), b) && Changed(f, move, amount, mac).pending == f.pending
  {
    if V.AnswerTo(f.value, move, amount, mac) == V.Ok { V.MovedOk(f.value, move, amount, mac); }
  }

  lemma WriteOk(c: Copies, cmd: Command)
    requires Ok(c) && Allowed(c, cmd) && (cmd.Stage? || cmd.ChangeValue? || cmd.WriteThrough?)
    ensures Ok(Effect(c, cmd))
  {
    hide Total;
    var f, b := c.live[cmd.at], c.base[cmd.at];
    assert Paired(f, b);
    assert c.base[cmd.at := b] == c.base;
    match cmd
    case Stage(at, data, count, _, _) => ChangedOk(Opened(c), at, f.(data := data, count := count, pending := true), b);
    case ChangeValue(at, move, amount, mac) =>
      ChangedPaired(f, b, move, amount, mac);
      ChangedOk(c, at, Changed(f, move, amount, mac), b);
    case WriteThrough(at, data) => ChangedOk(c, at, f.(data := data), b.(data := data));
  }

  lemma PublishedOk(c: Copies)
    requires Ok(c)
    ensures Ok(Published(c))
  {
    hide Total;
    var e := Published(c);
    assert Lengths(e.live) == Lengths(c.live);
    forall i | 0 <= i < |e.live|
      ensures Paired(e.live[i], e.base[i]) && !e.live[i].pending && !e.live[i].value.pending
    {
      assert Paired(c.live[i], c.base[i]);
      V.SettledOk(c.live[i].value);
    }
  }

  lemma EffectOk(c: Copies, cmd: Command)
    requires Ok(c) && Allowed(c, cmd)
    ensures Ok(Effect(c, cmd))
  {
    hide Ok, Total;
    AbortedOk(c);
    match cmd
    case Touch(_, _) => OpenedOk(c);
    case Create(number, kind, size, value) =>
      LengthsPaired(c);
      AddedOk(if kind == TransactionMac then Aborted(c) else c, Fresh(c.selected, number, kind, size, value));
    case Delete(at) => RemovedOk(if c.live[at].kind == TransactionMac then Aborted(c) else c, at);
    case Abort =>
    case Publish => PublishedOk(c);
    case Select(_) => SelectedOk(c, cmd.app);
    case _ => WriteOk(c, cmd);
  }

  lemma SelectedOk(c: Copies, app: nat)
    requires Ok(c)
    ensures Ok(Aborted(c).(selected := app))
  {
    AbortedOk(c);
    forall i | 0 <= i < |c.base|
      ensures !c.base[i].pending && !c.base[i].value.pending
    {
      assert Paired(c.live[i], c.base[i]);
    }
  }

  // ---- Runs -------------------------------------------------------------------------

  ghost predicate AllowedRun(c: Copies, cmds: seq<Command>)
    requires Ok(c)
    decreases |cmds|
  {
    cmds == [] || (Allowed(c, cmds[0]) && (EffectOk(c, cmds[0]); AllowedRun(Effect(c, cmds[0]), cmds[1..])))
  }

  ghost function Run(c: Copies, cmds: seq<Command>): (r: Copies)
    requires Ok(c) && AllowedRun(c, cmds)
    ensures Ok(r)
    decreases |cmds|
  {
    if cmds == [] then c else EffectOk(c, cmds[0]); Run(Effect(c, cmds[0]), cmds[1..])
  }

  /** Commands that neither end the transaction nor change the selected application. */
  predicate Inside(c: Copies, cmd: Command)
  {
    match cmd
    case Stage(_, _, _, _, _) => true
    case Touch(_, _) => true
    case ChangeValue(_, _, _, _) => true
    case WriteThrough(_, _) => true
    case Create(_, kind, _, _) => kind != TransactionMac
    case Delete(at) => at < |c.live| && c.live[at].kind != TransactionMac
    case Abort => false
    case Publish => false
    case Select(_) => false
  }

  ghost predicate InsideRun(c: Copies, cmds: seq<Command>)
    requires Ok(c) && AllowedRun(c, cmds)
    decreases |cmds|
  {
    cmds == [] || (Inside(c, cmds[0]) && (EffectOk(c, cmds[0]); InsideRun(Effect(c, cmds[0]), cmds[1..])))
  }

  predicate Staging(cmd: Command)
  {
    cmd.Stage? || cmd.Touch? || cmd.ChangeValue?
  }

  /** The commands whose effect a transaction does not hold back. */
  function Persistent(cmds: seq<Command>): seq<Command>
  {
    if cmds == [] then []
    else (if Staging(cmds[0]) then [] else [cmds[0]]) + Persistent(cmds[1..])
  }

  /** Where each file after the commands was before them; files made meanwhile come
      from nowhere. */
  function Origins(o: seq<Option<nat>>, cmds: seq<Command>): seq<Option<nat>>
    decreases |cmds|
  {
    if cmds == [] then o else Origins(NextOrigins(o, cmds[0]), cmds[1..])
  }

  function NextOrigins(o: seq<Option<nat>>, cmd: Command): seq<Option<nat>>
  {
    if cmd.Create? then o + [None]
    else if cmd.Delete? && cmd.at < |o| then Without(o, cmd.at)
    else o
  }

  function Identity(n: nat): (o: seq<Option<nat>>)
    ensures |o| == n && forall i :: 0 <= i < n ==> o[i] == Some(i)
  {
    seq(n, i requires 0 <= i < n => Some(i))
  }

  lemma EffectUnderStaging(c: Copies, d: Copies, cmd: Command)
    requires Ok(c) && Ok(d) && d == Aborted(c)
    requires Allowed(c, cmd) && Inside(c, cmd)
    ensures Staging(cmd) ==> Aborted(Effect(c, cmd)) == d
    ensures !Staging(cmd) ==> Allowed(d, cmd) && Aborted(Effect(c, cmd)) == Effect(d, cmd) && Inside(d, cmd)
    ensures Ok(Effect(c, cmd))
  {
    hide Ok, Total;
    EffectOk(c, cmd);
    AbortedOk(c);
    LengthsPaired(c);
    if cmd.WriteThrough? || cmd.Delete? { PairedAt(c, cmd.at); }
  }

  /** Aborting after any run leaves exactly what the persistent commands alone would
      have left: every staged write is undone and nothing else is. */
  lemma {:induction false} AbortUndoesStaging(c: Copies, cmds: seq<Command>)
    requires Ok(c) && AllowedRun(c, cmds) && InsideRun(c, cmds)
    ensures Ok(Aborted(c)) && AllowedRun(Aborted(c), Persistent(cmds))
    ensures Aborted(Run(c, cmds)) == Run(Aborted(c), Persistent(cmds))
    decreases |cmds|
  {
    hide Ok, Effect, Allowed, Inside;
    AbortedOk(c);
    if cmds != [] {
      var d := Aborted(c);
      EffectUnderStaging(c, d, cmds[0]);
      AbortUndoesStaging(Effect(c, cmds[0]), cmds[1..]);
      if Staging(cmds[0]) {
        assert Persistent(cmds) == Persistent(cmds[1..]);
      } else {
        assert Persistent(cmds) == [cmds[0]] + Persistent(cmds[1..]);
        assert Persistent(cmds)[0] == cmds[0] && Persistent(cmds)[1..] == Persistent(cmds[1..]);
      }
    }
  }

  /** File `f` is what file `o` of the start became, or was made since. */
  predicate FromStart(start: seq<File>, o: Option<nat>, f: File)
  {
    match o
    case Some(i) => i < |start| && (if Journaled(f.kind) || f.kind == Value then f == start[i] else Alike(f, start[i]))
    case None => (Journaled(f.kind) ==> f.data == Zeros(|f.data|) && f.count == 0) && V.IsNew(f.value)
  }

  /** The same file, perhaps with other contents. */
  predicate Alike(f: File, g: File)
  {
    f.app == g.app && f.number == g.number && f.kind == g.kind
  }

  ghost predicate FilesFromStart(start: seq<File>, o: seq<Option<nat>>, files: seq<File>)
  {
    |o| == |files| && forall j :: 0 <= j < |o| ==> FromStart(start, o[j], files[j])
  }

  lemma RemovalKeepsOrigins(start: seq<File>, o: seq<Option<nat>>, files: seq<File>, at: nat)
    requires FilesFromStart(start, o, files) && at < |o|
    ensures FilesFromStart(start, Without(o, at), Without(files, at))
  {
    hide FromStart;
    forall j | 0 <= j < |o| - 1
      ensures FromStart(start, Without(o, at)[j], Without(files, at)[j])
    {
      var k := if j < at then j else j + 1;
      assert FromStart(start, o[k], files[k]);
    }
  }

  lemma AdditionKeepsOrigins(start: seq<File>, o: seq<Option<nat>>, files: seq<File>, f: File)
    requires FilesFromStart(start, o, files) && FromStart(start, None, f)
    ensures FilesFromStart(start, o + [None], files + [f])
  {
    hide FromStart;
  }

  lemma WriteKeepsOrigins(start: seq<File>, o: seq<Option<nat>>, files: seq<File>, at: nat, data: seq<byte>)
    requires FilesFromStart(start, o, files) && at < |o| && files[at].kind == StandardData
    ensures FilesFromStart(start, o, files[at := files[at].(data := data)])
  {
    assert FromStart(start, o[at], files[at].(data := data));
    hide FromStart;
  }

  lemma EffectKeepsOrigins(start: seq<File>, o: seq<Option<nat>>, c: Copies, cmd: Command)
    requires Ok(c) && Allowed(c, cmd) && Inside(c, cmd)
    requires FilesFromStart(start, o, c.base)
    ensures FilesFromStart(start, NextOrigins(o, cmd), Effect(c, cmd).base)
  {
    hide Ok, Total, FilesFromStart;
    LengthsPaired(c);
    assert |o| == |c.base| by { OriginsCount(start, o, c.base); }
    match cmd
    case WriteThrough(at, data) =>
      PairedAt(c, at);
      WriteKeepsOrigins(start, o, c.base, at, data);
    case Create(number, kind, size, value) =>
      AdditionKeepsOrigins(start, o, c.base, Fresh(c.selected, number, kind, size, value));
    case Delete(at) => RemovalKeepsOrigins(start, o, c.base, at);
    case _ =>
  }

  lemma OriginsCount(start: seq<File>, o: seq<Option<nat>>, files: seq<File>)
    requires FilesFromStart(start, o, files)
    ensures |o| == |files|
  {
  }

  lemma {:induction false} RunKeepsOrigins(start: seq<File>, o: seq<Option<nat>>, c: Copies, cmds: seq<Command>)
    requires Ok(c) && AllowedRun(c, cmds) && InsideRun(c, cmds)
    requires FilesFromStart(start, o, c.base)
    ensures FilesFromStart(start, Origins(o, cmds), Run(c, cmds).base)
    decreases |cmds|
  {
    if cmds != [] {
      hide Ok, Allowed, Effect, FilesFromStart, Inside, NextOrigins;
      EffectOk(c, cmds[0]);
      EffectKeepsOrigins(start, o, c, cmds[0]);
      RunKeepsOrigins(start, NextOrigins(o, cmds[0]), Effect(c, cmds[0]), cmds[1..]);
    }
  }

  /** After any interleaving of staged writes, value changes, creations and deletions, an
      abort gives each surviving backup, record or value file what it had committed at the
      start, and files made since what they were made with. */
  lemma AbortRestoresStart(c: Copies, cmds: seq<Command>)
    requires Ok(c) && AllowedRun(c, cmds) && InsideRun(c, cmds)
    ensures FilesFromStart(c.base, Origins(Identity(|c.base|), cmds), Aborted(Run(c, cmds)).live)
  {
    assert FilesFromStart(c.base, Identity(|c.base|), c.base);
    RunKeepsOrigins(c.base, Identity(|c.base|), c, cmds);
  }
}
