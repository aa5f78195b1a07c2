/** One file through whole runs of the two-copy card: its contents follow a register of
    their own and its value an account of its own, whatever else the card does; a commit
    of the card commits both, and an abort or a selection abandons both. */
module FileRuns {
  import opened Bytes
  import opened Limits
  import opened TwoCopies
  import V = ValueFiles

  /** A commit leaves every file with the data and count it had been given, its value as the
      transaction saw it, and nothing pending, in both copies. */
  lemma PublishedFiles(c: Copies, i: nat)
    requires Ok(c) && i < |c.live|
    ensures var e := Published(c); |e.live| == |e.base| == |c.live|
    ensures var e, f := Published(c), c.live[i];
      && e.live[i] == e.base[i] && Alike(e.live[i], f) && e.live[i].data == f.data && e.live[i].count == f.count
      && !e.live[i].pending && !e.live[i].value.pending
      && e.live[i].value.current == (if f.value.pending then f.value.pendingValue else f.value.current)
      && e.live[i].value.lower == f.value.lower && e.live[i].value.upper == f.value.upper
  {
    assert Paired(c.live[i], c.base[i]);
  }

  /** Backup and record files of the selected application can be staged, whatever their
      octets; data files can be written through, and value files changed. */
  lemma WritableKinds(c: Copies, at: nat, data: seq<byte>, count: nat, marks: bool, memory: bool, move: V.Move, amount: int, mac: bool)
    requires at < |c.live| && c.live[at].app == c.selected && |data| == |c.live[at].data|
    ensures Allowed(c, Stage(at, data, count, marks, memory)) <==>
      c.live[at].kind in {LinearRecord, CyclicRecord} || (c.live[at].kind == BackupData && count == 0)
    ensures Allowed(c, Touch(at, memory)) <==> c.live[at].kind in {BackupData, LinearRecord, CyclicRecord}
    ensures Allowed(c, WriteThrough(at, data)) <==> c.live[at].kind == StandardData
    ensures Allowed(c, ChangeValue(at, move, amount, mac)) <==> c.live[at].kind == Value
    ensures Allowed(c, Delete(at))
  {
  }

  // ---- One file through a run -------------------------------------------------------------

  /** Where the file at `at` is after the command, if it is still there. */
  function NextPlace(at: nat, cmd: Command): Option<nat>
  {
    if cmd.Delete? && cmd.at == at then None
    else if cmd.Delete? && cmd.at < at then Some(at - 1)
    else Some(at)
  }

  /** What the command does to the account of the value file at `at`. */
  function ActsOf(c: Copies, at: nat, cmd: Command): seq<V.Act>
    requires Allowed(c, cmd)
  {
    match cmd
    case ChangeValue(k, move, amount, mac) => if k == at then [V.Change(move, amount, mac)] else []
    case Create(_, kind, _, _) => if kind == TransactionMac then [V.Abandon] else []
    case Delete(k) => if c.live[k].kind == TransactionMac then [V.Abandon] else []
    case Abort => [V.Abandon]
    case Select(_) => [V.Abandon]
    case Publish => [V.Commit]
    case _ => []
  }

  function Place(at: nat, cmds: seq<Command>): Option<nat>
    decreases |cmds|
  {
    if cmds == [] then Some(at)
    else if NextPlace(at, cmds[0]).None? then None
    else Place(NextPlace(at, cmds[0]).value, cmds[1..])
  }

  /** The account of the file at `at` over the run, as long as the file is there. */
  ghost function Acts(c: Copies, at: nat, cmds: seq<Command>): seq<V.Act>
    requires Ok(c) && AllowedRun(c, cmds)
    decreases |cmds|
  {
    if cmds == [] || NextPlace(at, cmds[0]).None? then []
    else
      EffectOk(c, cmds[0]);
      ActsOf(c, at, cmds[0]) + Acts(Effect(c, cmds[0]), NextPlace(at, cmds[0]).value, cmds[1..])
  }

  /** Putting a file back as it was committed drops its pending value. */
  lemma AbortedValue(c: Copies, at: nat)
    requires Ok(c) && at < |c.live|
    ensures at < |Aborted(c).live| && Aborted(c).live[at].value == V.Dropped(c.live[at].value)
  {
    assert Paired(c.live[at], c.base[at]);
  }

  lemma OneAct(a: V.Account, act: V.Act)
    ensures V.AfterAll(a, [act]) == V.After(a, act)
  {
    assert [act][1..] == [];
    assert V.AfterAll(V.After(a, act), []) == V.After(a, act);
  }

  lemma DeletionFollows(c: Copies, at: nat, cmd: Command, a: V.Account)
    requires Ok(c) && Allowed(c, cmd) && cmd.Delete? && at < |c.live| && at != cmd.at && a.v == c.live[at].value
    ensures var j := NextPlace(at, cmd).value;
      && j < |Effect(c, cmd).live|
      && Effect(c, cmd).live[j].value == V.AfterAll(a, ActsOf(c, at, cmd)).v
  {
    hide Ok, Total, V.Dropped, V.AfterAll;
    AbortedOk(c);
    AbortedValue(c, at);
    NoActs(a);
    OneAct(a, V.Abandon);
    WithoutAt(if c.live[cmd.at].kind == TransactionMac then Aborted(c).live else c.live, cmd.at, at);
  }

  lemma ChangeFollows(c: Copies, at: nat, cmd: Command, a: V.Account)
    requires Ok(c) && Allowed(c, cmd) && cmd.ChangeValue? && at < |c.live| && a.v == c.live[at].value
    ensures at < |Effect(c, cmd).live| && Effect(c, cmd).live[at].value == V.AfterAll(a, ActsOf(c, at, cmd)).v
  {
    hide Ok, Total, V.Moved, V.AnswerTo, V.AfterAll;
    NoActs(a);
    OneAct(a, V.Change(cmd.move, cmd.amount, cmd.mac));
  }

  /** After one command the file's value is where its account stands. */
  lemma StepFollows(c: Copies, at: nat, cmd: Command, a: V.Account)
    requires Ok(c) && Allowed(c, cmd) && at < |c.live| && NextPlace(at, cmd).Some? && a.v == c.live[at].value
    ensures var j := NextPlace(at, cmd).value;
      && j < |Effect(c, cmd).live|
      && Effect(c, cmd).live[j].value == V.AfterAll(a, ActsOf(c, at, cmd)).v
  {
    hide Effect, Ok, ActsOf, V.AfterAll;
    if cmd.Delete? {
      DeletionFollows(c, at, cmd, a);
    } else if cmd.ChangeValue? {
      ChangeFollows(c, at, cmd, a);
    } else {
      OtherFollows(c, at, cmd, a);
    }
  }

  lemma OtherFollows(c: Copies, at: nat, cmd: Command, a: V.Account)
    requires Ok(c) && Allowed(c, cmd) && !cmd.Delete? && !cmd.ChangeValue? && at < |c.live| && a.v == c.live[at].value
    ensures at < |Effect(c, cmd).live| && Effect(c, cmd).live[at].value == V.AfterAll(a, ActsOf(c, at, cmd)).v
  {
    hide Ok, Total, V.Applied, V.Dropped, V.AfterAll;
    AbortedOk(c);
    AbortedValue(c, at);
    NoActs(a);
    OneAct(a, V.Abandon);
    OneAct(a, V.Commit);
  }

  lemma WithoutAt(files: seq<File>, k: nat, at: nat)
    requires k < |files| && at < |files| && k != at
    ensures Without(files, k)[if k < at then at - 1 else at] == files[at]
  {
  }

  lemma {:induction false} Chained(a: V.Account, x: seq<V.Act>, y: seq<V.Act>)
    ensures V.AfterAll(a, x + y) == V.AfterAll(V.AfterAll(a, x), y)
    decreases |x|
  {
    if x == [] {
      assert x + y == y;
    } else {
      assert (x + y)[0] == x[0] && (x + y)[1..] == x[1..] + y;
      Chained(V.After(a, x[0]), x[1..], y);
    }
  }

  /** Over every run a file that is still there has the value its own changes, the card's
      commits and its aborts give it. */
  lemma {:induction false} RunFollows(c: Copies, at: nat, cmds: seq<Command>, a: V.Account)
    requires Ok(c) && AllowedRun(c, cmds) && at < |c.live| && a.v == c.live[at].value && Place(at, cmds).Some?
    ensures var j := Place(at, cmds).value;
      && j < |Run(c, cmds).live| == |Run(c, cmds).base|
      && Run(c, cmds).live[j].value == V.AfterAll(a, Acts(c, at, cmds)).v
      && Run(c, cmds).base[j].value == V.Dropped(Run(c, cmds).live[j].value)
    decreases |cmds|
  {
    hide Ok, Effect, Allowed, ActsOf, V.AfterAll, V.Dropped;
    if cmds == [] {
      PairedAt(c, at);
      LengthsPaired(c);
      NoActs(a);
    } else {
      EffectOk(c, cmds[0]);
      StepFollows(c, at, cmds[0], a);
      var j, first := NextPlace(at, cmds[0]).value, ActsOf(c, at, cmds[0]);
      RunFollows(Effect(c, cmds[0]), j, cmds[1..], V.AfterAll(a, first));
      Chained(a, first, Acts(Effect(c, cmds[0]), j, cmds[1..]));
    }
  }

  lemma NoActs(a: V.Account)
    ensures V.AfterAll(a, []) == a
  {
  }

  /** Over every run the committed value of a value file that started new is what it started
      with plus what was credited minus what was debited, within its bounds, and limited
      credits never exceed debits. */
  lemma BooksOverRun(c: Copies, at: nat, cmds: seq<Command>)
    requires Ok(c) && AllowedRun(c, cmds) && at < |c.live| && V.IsNew(c.live[at].value) && Place(at, cmds).Some?
    ensures var j := Place(at, cmds).value;
      var start, f := c.live[at].value, Run(c, cmds);
      var a := V.AfterAll(V.Opening(start), Acts(c, at, cmds));
      && j < |f.live| == |f.base|
      && f.base[j].value.current == f.live[j].value.current == start.current + a.credited + a.limited - a.debited
      && a.limited <= a.debited && start.lower <= f.base[j].value.current <= start.upper
  {
    hide V.AfterAll, Run, Acts;
    var v := c.live[at].value;
    RunFollows(c, at, cmds, V.Opening(v));
    V.LimitedCreditsAreCovered(v.lower, v.upper, v.current, v.limited, Acts(c, at, cmds));
  }

  // ---- The contents of one file -----------------------------------------------------------

  datatype Contents = Contents(data: seq<byte>, count: nat)

  /** What a file holds and what readers see of it. */
  datatype Register = Register(live: Contents, base: Contents)

  datatype Write = Put(data: seq<byte>, count: nat) | PutThrough(data: seq<byte>) | Keep | Restore

  function Written(r: Register, w: Write): Register
  {
    match w
    case Put(data, count) => r.(live := Contents(data, count))
    case PutThrough(data) => Register(r.live.(data := data), r.base.(data := data))
    case Keep => Register(r.live, r.live)
    case Restore => Register(r.base, r.base)
  }

  function WrittenAll(r: Register, writes: seq<Write>): Register
    decreases |writes|
  {
    if writes == [] then r else WrittenAll(Written(r, writes[0]), writes[1..])
  }

  function RegisterOf(f: File, b: File): Register
  {
    Register(Contents(f.data, f.count), Contents(b.data, b.count))
  }

  /** What the command writes to the file at `at`. */
  function WritesOf(c: Copies, at: nat, cmd: Command): seq<Write>
    requires Allowed(c, cmd)
  {
    match cmd
    case Stage(k, data, count, _, memory) => if k == at && (c.open || memory) then [Put(data, count)] else []
    case WriteThrough(k, data) => if k == at then [PutThrough(data)] else []
    case Create(_, kind, _, _) => if kind == TransactionMac then [Restore] else []
    case Delete(k) => if c.live[k].kind == TransactionMac then [Restore] else []
    case Abort => [Restore]
    case Select(_) => [Restore]
    case Publish => [Keep]
    case _ => []
  }

  ghost function Writes(c: Copies, at: nat, cmds: seq<Command>): seq<Write>
    requires Ok(c) && AllowedRun(c, cmds)
    decreases |cmds|
  {
    if cmds == [] || NextPlace(at, cmds[0]).None? then []
    else
      EffectOk(c, cmds[0]);
      WritesOf(c, at, cmds[0]) + Writes(Effect(c, cmds[0]), NextPlace(at, cmds[0]).value, cmds[1..])
  }

  lemma OneWrite(r: Register, w: Write)
    ensures WrittenAll(r, [w]) == Written(r, w) && WrittenAll(r, []) == r
  {
    assert [w][1..] == [];
    assert WrittenAll(Written(r, w), []) == Written(r, w);
  }

  lemma {:induction false} WritesChained(r: Register, x: seq<Write>, y: seq<Write>)
    ensures WrittenAll(r, x + y) == WrittenAll(WrittenAll(r, x), y)
    decreases |x|
  {
    if x == [] {
      assert x + y == y;
    } else {
      assert (x + y)[0] == x[0] && (x + y)[1..] == x[1..] + y;
      WritesChained(Written(r, x[0]), x[1..], y);
    }
  }

  lemma DeletionWrites(c: Copies, at: nat, cmd: Command)
    requires Ok(c) && Allowed(c, cmd) && cmd.Delete? && at < |c.live| && at != cmd.at
    ensures at < |c.base| && var e, j := Effect(c, cmd), NextPlace(at, cmd).value;
      && j < |e.live| == |e.base| && Alike(e.live[j], c.live[at])
      && RegisterOf(e.live[j], e.base[j]) == WrittenAll(RegisterOf(c.live[at], c.base[at]), WritesOf(c, at, cmd))
  {
    hide Ok, Total, WrittenAll;
    AbortedOk(c);
    LengthsPaired(c);
    PairedAt(c, at);
    OneWrite(RegisterOf(c.live[at], c.base[at]), Restore);
    WithoutAt(if c.live[cmd.at].kind == TransactionMac then c.base else c.live, cmd.at, at);
    WithoutAt(c.base, cmd.at, at);
  }

  /** Commands that write one file at most. */
  lemma WriteWrites(c: Copies, at: nat, cmd: Command)
    requires Ok(c) && Allowed(c, cmd) && at < |c.live| && (cmd.Stage? || cmd.Touch? || cmd.ChangeValue? || cmd.WriteThrough?)
    ensures at < |c.base| && var e := Effect(c, cmd);
      && at < |e.live| == |e.base| && Alike(e.live[at], c.live[at])
      && RegisterOf(e.live[at], e.base[at]) == WrittenAll(RegisterOf(c.live[at], c.base[at]), WritesOf(c, at, cmd))
  {
    hide Ok, Total, WrittenAll, V.Moved, V.AnswerTo;
    LengthsPaired(c);
    var r, writes := RegisterOf(c.live[at], c.base[at]), WritesOf(c, at, cmd);
    OneWrite(r, if writes == [] then Keep else writes[0]);
  }

  lemma SettleWrites(c: Copies, at: nat, cmd: Command)
    requires Ok(c) && Allowed(c, cmd) && at < |c.live| && (cmd.Create? || cmd.Abort? || cmd.Publish? || cmd.Select?)
    ensures at < |c.base| && var e := Effect(c, cmd);
      && at < |e.live| == |e.base| && Alike(e.live[at], c.live[at])
      && RegisterOf(e.live[at], e.base[at]) == WrittenAll(RegisterOf(c.live[at], c.base[at]), WritesOf(c, at, cmd))
  {
    hide Ok, Total, WrittenAll, V.Applied;
    AbortedOk(c);
    LengthsPaired(c);
    PairedAt(c, at);
    var r, writes := RegisterOf(c.live[at], c.base[at]), WritesOf(c, at, cmd);
    OneWrite(r, if writes == [] then Keep else writes[0]);
  }

  lemma StepWrites(c: Copies, at: nat, cmd: Command)
    requires Ok(c) && Allowed(c, cmd) && at < |c.live| && NextPlace(at, cmd).Some?
    ensures at < |c.base| && var e, j := Effect(c, cmd), NextPlace(at, cmd).value;
      && j < |e.live| == |e.base| && Alike(e.live[j], c.live[at])
      && RegisterOf(e.live[j], e.base[j]) == WrittenAll(RegisterOf(c.live[at], c.base[at]), WritesOf(c, at, cmd))
  {
    hide Effect, Ok, WrittenAll, WritesOf, RegisterOf, Alike;
    if cmd.Delete? {
      DeletionWrites(c, at, cmd);
    } else if cmd.Create? || cmd.Abort? || cmd.Publish? || cmd.Select? {
      SettleWrites(c, at, cmd);
    } else {
      WriteWrites(c, at, cmd);
    }
  }

  /** A new file is the last one in both copies, of the selected application and zeroed. */
  lemma CreatedFile(c: Copies, cmd: Command)
    requires Ok(c) && Allowed(c, cmd) && cmd.Create?
    ensures var e, n := Effect(c, cmd), |c.live|;
      && |e.live| == |e.base| == n + 1 && e.selected == c.selected
      && e.live[n] == e.base[n] == File(c.selected, cmd.number, cmd.kind, Zeros(cmd.size), 0, false, cmd.value)
  {
    hide Ok, Total;
    LengthsPaired(c);
  }

  /** Over every run what a file holds, and what readers see of it, are given by the writes to
      it, the commits and the aborts alone. */
  lemma {:induction false} RunWrites(c: Copies, at: nat, cmds: seq<Command>)
    requires Ok(c) && AllowedRun(c, cmds) && at < |c.live| && Place(at, cmds).Some?
    ensures at < |c.base| && var e, j := Run(c, cmds), Place(at, cmds).value;
      && j < |e.live| == |e.base| && Alike(e.live[j], c.live[at])
      && RegisterOf(e.live[j], e.base[j]) == WrittenAll(RegisterOf(c.live[at], c.base[at]), Writes(c, at, cmds))
    decreases |cmds|
  {
    hide Ok, Effect, Allowed, WritesOf, WrittenAll, RegisterOf;
    LengthsPaired(c);
    var r := RegisterOf(c.live[at], c.base[at]);
    if cmds == [] {
      OneWrite(r, Keep);
    } else {
      EffectOk(c, cmds[0]);
      StepWrites(c, at, cmds[0]);
      var j, first := NextPlace(at, cmds[0]).value, WritesOf(c, at, cmds[0]);
      RunWrites(Effect(c, cmds[0]), j, cmds[1..]);
      WritesChained(r, first, Writes(Effect(c, cmds[0]), j, cmds[1..]));
    }
  }

  // ---- The mark that asks for saving ------------------------------------------------------

  lemma StepMarks(c: Copies, cmd: Command)
    requires Ok(c) && Allowed(c, cmd)
    ensures var e := Effect(c, cmd); e.baseDirty || (e.base == c.base && !c.baseDirty)
    ensures c.baseDirty ==> Effect(c, cmd).baseDirty
  {
    hide Ok, Total;
  }

  /** Over every run a card that is not marked dirty and has no transaction open holds the
      very files it started with. */
  lemma {:induction false} CleanIsUnchanged(c: Copies, cmds: seq<Command>)
    requires Ok(c) && AllowedRun(c, cmds)
    ensures var e := Run(c, cmds); !e.baseDirty ==> e.base == c.base && !c.baseDirty
    ensures var e := Run(c, cmds); !e.open && !e.dirty ==> e.base == c.base
    decreases |cmds|
  {
    if cmds != [] {
      hide Ok, Effect, Allowed;
      EffectOk(c, cmds[0]);
      StepMarks(c, cmds[0]);
      CleanIsUnchanged(Effect(c, cmds[0]), cmds[1..]);
    }
  }
}
