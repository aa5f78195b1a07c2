/** Value files: credits and debits wait for the end of the transaction, and a limited
    credit may give back no more than was debited. */
module ValueFiles {

  const INT_MAX: int := 0x7FFF_FFFF
  const INT_MIN: int := -0x8000_0000
  /** What `limitPending` holds once the transaction has made its limited credit. */
  const CONSUMED: int := -1

  datatype Value = Value(lower: int, upper: int, current: int, limited: nat, limit: int,
                         pending: bool, pendingValue: int, pendingAbsolute: bool, pendingDelta: int, limitPending: int)

  datatype Move = Credit | Debit | LimitedCredit

  datatype Answer = Ok | ParameterError | PermissionDenied | BoundaryError

  function NewValue(lower: int, upper: int, current: int, limited: nat): Value
  {
    Value(lower, upper, current, limited, 0, false, 0, false, 0, 0)
  }

  /** The bounds an accepted creation command or a decoded file meets. */
  predicate Limits32(lower: int, upper: int, current: int)
  {
    INT_MIN <= lower <= current <= upper <= INT_MAX
  }

  // ---- One file ---------------------------------------------------------------------------

  /** The value as the open transaction sees it. */
  function Staged(v: Value): int
  {
    if !v.pending then v.current
    else if v.pendingAbsolute then v.pendingValue
    else v.current + v.pendingDelta
  }

  function Delta(move: Move, amount: int): int
  {
    if move == Debit then -amount else amount
  }

  /** What a limited credit may still give: the debits of this transaction if there are
      any, and otherwise what earlier ones left. */
  function Available(v: Value): int
  {
    if v.limitPending > 0 then v.limitPending else v.limit
  }

  /** The answer to a value command, in the order of its checks; `mac` says whether the
      transaction MAC takes it in. */
  function AnswerTo(v: Value, move: Move, amount: int, mac: bool): Answer
  {
    if amount < 0 then ParameterError
    else if move == LimitedCredit && v.limited % 2 == 0 then PermissionDenied
    else if move == LimitedCredit && (v.limitPending == CONSUMED || amount > Available(v)) then BoundaryError
    else if !(v.lower <= Staged(v) + Delta(move, amount) <= v.upper) then BoundaryError
    else if !mac then BoundaryError
    else Ok
  }

  function Clamped(x: int): int
  {
    if x > INT_MAX then INT_MAX else if x < INT_MIN then INT_MIN else x
  }

  function Moved(v: Value, move: Move, amount: int): Value
  {
    var next := Staged(v) + Delta(move, amount);
    v.(pending := true, pendingValue := next, pendingAbsolute := true, pendingDelta := Clamped(next - v.current),
       limitPending := if move == LimitedCredit then CONSUMED
                       else if move == Debit && v.limitPending >= 0 then Clamped(v.limitPending + amount)
                       else v.limitPending)
  }

  function Dropped(v: Value): Value
  {
    v.(pending := false, pendingValue := 0, pendingAbsolute := false, pendingDelta := 0, limitPending := 0)
  }

  function Applied(v: Value): Value
  {
    if !v.pending then v
    else Dropped(v.(current := Staged(v),
                    limit := if v.limitPending == CONSUMED then 0
                             else if v.limitPending > 0 then v.limitPending
                             else v.limit))
  }

  /** The committed and the staged value are within their bounds, and nothing is left of a
      transaction that has ended. A pending value is always given outright, so the branch
      that adds the stored difference, which is clamped, is never needed. */
  predicate ValueOk(v: Value)
  {
    && Limits32(v.lower, v.upper, v.current) && 0 <= v.limit <= INT_MAX
    && CONSUMED <= v.limitPending <= INT_MAX
    && (v.pending ==> v.pendingAbsolute && v.lower <= v.pendingValue <= v.upper)
    && (!v.pending ==> v == Dropped(v))
  }

  /** As a creation command leaves it. */
  predicate IsNew(v: Value)
  {
    Limits32(v.lower, v.upper, v.current) && v == NewValue(v.lower, v.upper, v.current, v.limited)
  }

  lemma NewValueOk(lower: int, upper: int, current: int, limited: nat)
    requires Limits32(lower, upper, current)
    ensures ValueOk(NewValue(lower, upper, current, limited))
  {
  }

  lemma MovedOk(v: Value, move: Move, amount: int, mac: bool)
    requires ValueOk(v) && AnswerTo(v, move, amount, mac) == Ok
    ensures ValueOk(Moved(v, move, amount)) && Dropped(Moved(v, move, amount)) == Dropped(v)
  {
  }

  lemma SettledOk(v: Value)
    requires ValueOk(v)
    ensures ValueOk(Dropped(v)) && ValueOk(Applied(v))
    ensures !Applied(v).pending && Applied(v).current == Staged(v)
    ensures !Dropped(v).pending && Dropped(v).current == v.current && Dropped(v).limit == v.limit
  {
  }

  // ---- What is credited and debited ---------------------------------------------------------

  datatype Act = Change(move: Move, amount: int, mac: bool) | Commit | Abandon

  /** A file with what its committed transactions and the open one credited, debited and
      credited within the limit; `openUsed` says that the open one made its limited credit. */
  datatype Account = Account(v: Value, credited: nat, debited: nat, limited: nat,
                             openCredited: nat, openDebited: nat, openLimited: nat, openUsed: bool)

  function Opening(v: Value): Account
  {
    Account(v, 0, 0, 0, 0, 0, 0, false)
  }

  function After(a: Account, act: Act): Account
  {
    match act
    case Change(move, amount, mac) =>
      if AnswerTo(a.v, move, amount, mac) != Ok then a
      else
        var b := a.(v := Moved(a.v, move, amount));
        if move == Credit then b.(openCredited := a.openCredited + amount)
        else if move == Debit then b.(openDebited := a.openDebited + amount)
        else b.(openLimited := a.openLimited + amount, openUsed := true)
    case Commit =>
      Account(Applied(a.v), a.credited + a.openCredited, a.debited + a.openDebited, a.limited + a.openLimited, 0, 0, 0, false)
    case Abandon => a.(v := Dropped(a.v), openCredited := 0, openDebited := 0, openLimited := 0, openUsed := false)
  }

  function AfterAll(a: Account, acts: seq<Act>): Account
    decreases |acts|
  {
    if acts == [] then a else AfterAll(After(a, acts[0]), acts[1..])
  }

  /** The balance of the books, started at `start`. */
  predicate Balanced(a: Account, start: int)
  {
    && ValueOk(a.v)
    && a.v.current == start + a.credited + a.limited - a.debited
    && Staged(a.v) == a.v.current + a.openCredited + a.openLimited - a.openDebited
    && (!a.v.pending ==> a.openCredited == a.openLimited == a.openDebited == 0 && !a.openUsed)
    && a.v.limit <= a.debited - a.limited
    && (a.openUsed <==> a.v.limitPending == CONSUMED)
    && (!a.openUsed ==> a.openLimited == 0 && a.v.limitPending == Least(a.openDebited, INT_MAX))
    && (a.openUsed ==> a.openLimited <= a.openDebited || a.openLimited <= a.v.limit)
  }

  function Least(x: int, y: int): int
  {
    if x < y then x else y
  }

  /** What a limited credit may give: the debits of this transaction if there are any, and
      otherwise what earlier transactions left. */
  function Allowance(a: Account): int
  {
    if a.openDebited > 0 then Least(a.openDebited, INT_MAX) else a.v.limit
  }

  /** A change is accepted exactly when its amount is not negative, the value as credited and
      debited so far stays within its bounds, and a limited credit is the first of its
      transaction, enabled, and within the allowance. */
  lemma AnswerLaw(a: Account, start: int, move: Move, amount: int, mac: bool)
    requires Balanced(a, start)
    ensures AnswerTo(a.v, move, amount, mac) == Ok <==>
      && amount >= 0 && mac
      && a.v.lower <= start + a.credited + a.limited - a.debited + a.openCredited + a.openLimited - a.openDebited
                      + (if move == Debit then -amount else amount) <= a.v.upper
      && (move == LimitedCredit ==> a.v.limited % 2 == 1 && !a.openUsed && amount <= Allowance(a))
  {
  }

  /** A commit makes the staged value final. What it leaves for later limited credits is
      nothing if it made one, its debits if it made any, and otherwise what was left before. */
  lemma CommitLaw(a: Account, start: int)
    requires Balanced(a, start)
    ensures var v := After(a, Commit).v;
      && !v.pending && v.current == a.v.current + a.openCredited + a.openLimited - a.openDebited
      && v.limit == (if a.openUsed then 0 else if a.openDebited > 0 then Least(a.openDebited, INT_MAX) else a.v.limit)
      && v.lower == a.v.lower && v.upper == a.v.upper && v.limited == a.v.limited
    ensures var v := After(a, Abandon).v;
      !v.pending && v.current == a.v.current && v.limit == a.v.limit
  {
  }

  lemma ChangeBalances(a: Account, act: Act, start: int)
    requires Balanced(a, start) && act.Change? && AnswerTo(a.v, act.move, act.amount, act.mac) == Ok
    ensures Balanced(After(a, act), start)
  {
    MovedOk(a.v, act.move, act.amount, act.mac);
  }

  lemma SettleBalances(a: Account, start: int)
    requires Balanced(a, start)
    ensures Balanced(After(a, Commit), start) && Balanced(After(a, Abandon), start)
  {
    SettledOk(a.v);
  }

  lemma StepBalances(a: Account, act: Act, start: int)
    requires Balanced(a, start)
    ensures Balanced(After(a, act), start)
  {
    hide Balanced;
    match act
    case Change(move, amount, mac) => if AnswerTo(a.v, move, amount, mac) == Ok { ChangeBalances(a, act, start); }
    case Commit => SettleBalances(a, start);
    case Abandon => SettleBalances(a, start);
  }

  lemma {:induction false} RunBalances(a: Account, acts: seq<Act>, start: int)
    requires Balanced(a, start)
    ensures Balanced(AfterAll(a, acts), start)
    decreases |acts|
  {
    if acts != [] {
      StepBalances(a, acts[0], start);
      RunBalances(After(a, acts[0]), acts[1..], start);
    }
  }

  /** Over every run of a new value file the committed value is what it started with plus
      what was credited minus what was debited, stays within its bounds, and limited credits
      never exceed the debits. */
  lemma LimitedCreditsAreCovered(lower: int, upper: int, start: int, limited: nat, acts: seq<Act>)
    requires Limits32(lower, upper, start)
    ensures var a := AfterAll(Opening(NewValue(lower, upper, start, limited)), acts);
      && a.v.current == start + a.credited + a.limited - a.debited
      && a.limited <= a.debited && a.limited + a.openLimited <= a.debited + a.openDebited
      && lower <= a.v.current <= upper && lower <= Staged(a.v) <= upper
  {
    var a := Opening(NewValue(lower, upper, start, limited));
    RunBalances(a, acts, start);
    BoundsStay(a, acts);
  }

  lemma {:induction false} BoundsStay(a: Account, acts: seq<Act>)
    ensures AfterAll(a, acts).v.lower == a.v.lower && AfterAll(a, acts).v.upper == a.v.upper
    decreases |acts|
  {
    if acts != [] { BoundsStay(After(a, acts[0]), acts[1..]); }
  }
}
