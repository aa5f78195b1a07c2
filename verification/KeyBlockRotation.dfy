/** The in-place rotation of fixed-width key blocks: one pass per residue class of
    the greatest common divisor, each pass walking one cycle of the shift. */
module KeyBlockRotation {
  import opened Bytes
  import opened Arithmetic

  /** The `count` blocks of `width` octets that start at `base`. */
  function Blocks(s: seq<byte>, base: nat, width: nat, count: nat): (r: seq<seq<byte>>)
    requires base + count * width <= |s|
    ensures |r| == count
    ensures forall b :: 0 <= b < count ==> |r[b]| == width
  {
    seq(count, b requires 0 <= b < count => BlockAt(s, base, width, count, b))
  }

  function BlockAt(s: seq<byte>, base: nat, width: nat, count: nat, b: nat): (r: seq<byte>)
    requires b < count && base + count * width <= |s|
    ensures |r| == width
  {
    BlocksApart(b, count, width);
    s[base + b * width..base + b * width + width]
  }

  lemma BlocksApart(b: nat, c: nat, width: nat)
    requires b < c
    ensures (b + 1) * width <= c * width
    ensures (b + 1) * width == b * width + width
  {
    assert (c - (b + 1)) * width >= 0;
    assert c * width == (c - (b + 1)) * width + (b + 1) * width;
  }

  /** The octets outside the `size` octets from `base` are the same. */
  ghost predicate OutsideKept(was: seq<byte>, now: seq<byte>, base: nat, size: nat)
    requires |was| == |now|
  {
    forall k :: 0 <= k < |was| && !(base <= k < base + size) ==> now[k] == was[k]
  }

  lemma OtherBlock(before: seq<byte>, after: seq<byte>, base: nat, width: nat, count: nat, d: nat, b: nat)
    requires d < count && b < count && b != d && base + count * width <= |before| == |after|
    requires OutsideKept(before, after, base + d * width, width)
    ensures BlockAt(after, base, width, count, b) == BlockAt(before, base, width, count, b)
  {
    BlocksApart(b, count, width);
    if b < d { BlocksApart(b, d, width); } else { BlocksApart(d, b, width); }
  }

  lemma StoredView(before: seq<byte>, after: seq<byte>, base: nat, width: nat, count: nat, d: nat)
    requires d < count && base + count * width <= |before| == |after|
    requires OutsideKept(before, after, base + d * width, width)
    ensures Blocks(after, base, width, count)
         == Blocks(before, base, width, count)[d := BlockAt(after, base, width, count, d)]
    ensures OutsideKept(before, after, base, count * width)
  {
    forall b | 0 <= b < count && b != d
      ensures BlockAt(after, base, width, count, b) == BlockAt(before, base, width, count, b)
    {
      OtherBlock(before, after, base, width, count, d, b);
    }
    BlocksApart(d, count, width);
  }

  /** Overwrites block `d` and nothing else. */
  method StoreBlock(a: array<byte>, base: nat, width: nat, count: nat, d: nat, value: seq<byte>)
    requires d < count && base + count * width <= a.Length
    requires |value| == width
    modifies a
    ensures Blocks(a[..], base, width, count) == old(Blocks(a[..], base, width, count))[d := value]
    ensures OutsideKept(old(a[..]), a[..], base, count * width)
  {
    BlocksApart(d, count, width);
    var at := base + d * width;
    assert at + width <= a.Length;
    forall k | 0 <= k < width {
      a[at + k] := value[k];
    }
    assert a[at..at + width] == value;
    assert BlockAt(a[..], base, width, count, d) == value;
    StoredView(old(a[..]), a[..], base, width, count, d);
  }

  // ---- The cycles of the shift ------------------------------------------------

  /** A rotation of `count` blocks by `shift`, factored by `g`, the greatest common
      divisor of the two: `g` residue classes of `places` blocks, inside which one
      step advances by `stride`, and `inverse` undoes `stride` modulo `places`. */
  datatype Walk = Walk(count: nat, shift: nat, g: nat, places: nat, stride: nat, x: int, inverse: int) {

    ghost predicate Valid()
      ensures Valid() ==> g > 0 && places > 0
    {
      && g > 0 && places > 0
      && count == places * g && shift == stride * g
      && places * x + stride * inverse == 1
    }

    /** The block reached after `i` steps from block `cycle`. */
    ghost function Pos(cycle: nat, i: nat): nat
      requires places > 0
    {
      ((i * stride) % places) * g + cycle
    }

    /** The step at which block `b` is reached. */
    ghost function StepOf(b: nat): nat
      requires places > 0 && g > 0
    {
      ((b / g) * inverse) % places
    }
  }

  lemma FactoredWalk(count: nat, shift: nat) returns (w: Walk)
    requires count > 0
    ensures w.Valid() && w.count == count && w.shift == shift && w.g == Gcd(count, shift)
  {
    var p, r, x, y := GcdCofactors(count, shift);
    w := Walk(count, shift, Gcd(count, shift), p, r, x, y);
  }

  /** `i * a` modulo `n`, multiplied by an inverse of `a`, gives `i` back. */
  lemma InverseCancels(i: nat, n: nat, a: int, b: int, x: int)
    requires i < n
    requires n * x + a * b == 1
    ensures (((i * a) % n) * b) % n == i
  {
    ModMul(i * a, b, n);
    MulAssoc(i, a, b);
    MulDistributes(i, 1, n * x);
    MulSwap(i, n, x);
    assert (i * a) * b == i + (-(i * x)) * n;
    ModShift(i, -(i * x), n);
    DivModUnique(i, 0, n, i);
  }

  /** Place `m` of residue class `cycle` among `n * g` blocks. */
  lemma ClassMember(g: nat, n: nat, cycle: nat, m: nat)
    requires cycle < g && m < n
    ensures m * g + cycle < n * g
    ensures (m * g + cycle) % g == cycle && (m * g + cycle) / g == m
  {
    DivModUnique(m * g + cycle, m, g, cycle);
    BlocksApart(m, n, g);
    assert (m + 1) * g == m * g + g;
  }

  /** Reduction modulo the block count acts on the place within the class. */
  lemma ClassWraps(g: nat, n: nat, cycle: nat, t: nat)
    requires cycle < g && 0 < n
    ensures n * g > 0
    ensures (t * g + cycle) % (n * g) == (t % n) * g + cycle
  {
    var q, r := t / n, t % n;
    ClassMember(g, n, cycle, r);
    assert t * g == q * (n * g) + r * g by {
      assert t == q * n + r;
      assert t * g == (q * n) * g + r * g;
      MulAssoc(q, n, g);
    }
    DivModUnique(t * g + cycle, q, n * g, r * g + cycle);
  }

  /** No block is reached twice within `places` steps. */
  lemma PosFacts(w: Walk, cycle: nat, i: nat)
    requires w.Valid() && cycle < w.g && i < w.places
    ensures w.Pos(cycle, i) < w.count
    ensures w.Pos(cycle, i) % w.g == cycle
    ensures w.StepOf(w.Pos(cycle, i)) == i
  {
    ClassMember(w.g, w.places, cycle, (i * w.stride) % w.places);
    InverseCancels(i, w.places, w.stride, w.inverse, w.x);
  }

  /** Every block of the class is reached within `places` steps. */
  lemma StepFacts(w: Walk, b: nat)
    requires w.Valid() && b < w.count
    ensures w.StepOf(b) < w.places
    ensures w.Pos(b % w.g, w.StepOf(b)) == b
  {
    var m := b / w.g;
    assert b == m * w.g + b % w.g;
    assert m >= w.places ==> m * w.g == w.places * w.g + (m - w.places) * w.g;
    assert m >= w.places ==> (m - w.places) * w.g >= 0;
    InverseCancels(m, w.places, w.inverse, w.stride, w.x);
  }

  /** One step of the walk moves to the next position of the cycle. */
  lemma NextPos(w: Walk, cycle: nat, i: nat)
    requires w.Valid() && cycle < w.g
    ensures w.count > 0
    ensures (w.Pos(cycle, i) + w.shift) % w.count == w.Pos(cycle, i + 1)
  {
    var m := (i * w.stride) % w.places;
    assert m * w.g + w.stride * w.g == (m + w.stride) * w.g;
    ClassWraps(w.g, w.places, cycle, m + w.stride);
    ModAdd(i * w.stride, w.stride, w.places);
    assert (i + 1) * w.stride == i * w.stride + w.stride;
  }

  /** The walk is back at its start exactly after `places` steps. */
  lemma CycleCloses(w: Walk, cycle: nat, i: nat)
    requires w.Valid() && cycle < w.g && 0 < i <= w.places
    ensures w.Pos(cycle, 0) == cycle
    ensures w.Pos(cycle, i) == cycle <==> i == w.places
  {
    DivModUnique(0, 0, w.places, 0);
    if i == w.places {
      DivModUnique(w.places * w.stride, w.stride, w.places, 0);
    } else {
      PosFacts(w, cycle, i);
      PosFacts(w, cycle, 0);
    }
  }

  // ---- The rotation -------------------------------------------------------------

  /** Which original block a block holds once the passes before `cycle` are done and
      pass `cycle` has taken `steps` steps. */
  ghost function SourceOf(w: Walk, cycle: nat, steps: nat, b: nat): nat
    requires w.Valid() && w.count > 0
  {
    if b % w.g < cycle || (b % w.g == cycle && w.StepOf(b) < steps) then (b + w.shift) % w.count else b
  }

  /** Every block holds the original block that SourceOf names. */
  ghost predicate Walked<T>(was: seq<T>, now: seq<T>, w: Walk, cycle: nat, steps: nat)
    requires w.Valid() && w.count > 0
  {
    && |was| == |now| == w.count
    && forall b :: 0 <= b < w.count ==> now[b] == was[SourceOf(w, cycle, steps, b)]
  }

  /** The block the walk stands on still has to be filled; its successor still holds
      its original value unless the walk is about to close. */
  lemma Standing<T>(was: seq<T>, now: seq<T>, w: Walk, cycle: nat, steps: nat)
    requires w.Valid() && w.count > 0 && cycle < w.g && steps < w.places
    requires Walked(was, now, w, cycle, steps)
    ensures var d := w.Pos(cycle, steps);
            var next := (d + w.shift) % w.count;
            && d < w.count
            && now[d] == was[d]
            && (steps == 0 ==> d == cycle)
            && (next == cycle <==> steps + 1 == w.places)
            && (next != cycle ==> now[next] == was[next] && next == w.Pos(cycle, steps + 1))
  {
    PosFacts(w, cycle, steps);
    NextPos(w, cycle, steps);
    CycleCloses(w, cycle, steps + 1);
    if steps + 1 < w.places { PosFacts(w, cycle, steps + 1); }
  }

  /** Filling the block the walk stands on takes one step. */
  lemma Filled<T>(was: seq<T>, now: seq<T>, w: Walk, cycle: nat, steps: nat)
    requires w.Valid() && w.count > 0 && cycle < w.g && steps < w.places
    requires Walked(was, now, w, cycle, steps)
    ensures var d := w.Pos(cycle, steps);
            && d < w.count
            && Walked(was, now[d := was[(d + w.shift) % w.count]], w, cycle, steps + 1)
  {
    var d := w.Pos(cycle, steps);
    PosFacts(w, cycle, steps);
    forall b | 0 <= b < w.count && b != d
      ensures SourceOf(w, cycle, steps + 1, b) == SourceOf(w, cycle, steps, b)
    {
      StepFacts(w, b);
    }
  }

  /** A closed cycle leaves its whole class rotated. */
  lemma Closed<T>(was: seq<T>, now: seq<T>, w: Walk, cycle: nat)
    requires w.Valid() && w.count > 0 && cycle < w.g
    requires Walked(was, now, w, cycle, w.places)
    ensures Walked(was, now, w, cycle + 1, 0)
  {
    forall b | 0 <= b < w.count
      ensures SourceOf(w, cycle + 1, 0, b) == SourceOf(w, cycle, w.places, b)
    {
      StepFacts(w, b);
    }
  }

  /** Before the first pass every block is its own source; after the last every
      block holds the one `shift` places on. */
  lemma FirstAndLast<T>(was: seq<T>, now: seq<T>, w: Walk)
    requires w.Valid() && w.count > 0 && |was| == w.count
    ensures Walked(was, was, w, 0, 0)
    ensures Walked(was, now, w, w.g, 0) ==> now == RotateLeft(was, w.shift)
  {
    if Walked(was, now, w, w.g, 0) {
      forall b | 0 <= b < w.count
        ensures now[b] == was[(b + w.shift) % w.count]
      {
        assert now[b] == was[SourceOf(w, w.g, 0, b)];
      }
    }
  }

  /** One pass: walks the cycle that starts at block `cycle`, with one block of
      scratch, and stops where it began. */
  method WalkCycle(a: array<byte>, base: nat, count: nat, width: nat, shift: nat, cycle: nat,
                   ghost was: seq<seq<byte>>, ghost w: Walk)
    requires 0 < count && base + count * width <= a.Length
    requires w.Valid() && w.count == count && w.shift == shift && cycle < w.g
    requires Walked(was, Blocks(a[..], base, width, count), w, cycle, 0)
    modifies a
    ensures Walked(was, Blocks(a[..], base, width, count), w, cycle + 1, 0)
    ensures OutsideKept(old(a[..]), a[..], base, count * width)
  {
    hide Walk.Valid;
    hide Walk.Pos;
    hide SourceOf;
    hide BlockAt;
    var current := cycle;
    ghost var steps: nat := 0;
    Standing(was, Blocks(a[..], base, width, count), w, cycle, 0);
    var scratch := BlockAt(a[..], base, width, count, current);
    while true
      invariant steps < w.places && current == w.Pos(cycle, steps)
      invariant current < count
      invariant Walked(was, Blocks(a[..], base, width, count), w, cycle, steps)
      invariant scratch == was[cycle]
      invariant OutsideKept(old(a[..]), a[..], base, count * width)
      decreases w.places - steps
    {
      var next := (current + shift) % count;
      Standing(was, Blocks(a[..], base, width, count), w, cycle, steps);
      if next == cycle { break; }
      Filled(was, Blocks(a[..], base, width, count), w, cycle, steps);
      StoreBlock(a, base, width, count, current, BlockAt(a[..], base, width, count, next));
      current := next;
      steps := steps + 1;
    }
    Filled(was, Blocks(a[..], base, width, count), w, cycle, steps);
    StoreBlock(a, base, width, count, current, scratch);
    Closed(was, Blocks(a[..], base, width, count), w, cycle);
  }

  /** The number of passes, and the walk they make. */
  method CountCycles(count: nat, shift: nat) returns (cycles: nat, ghost w: Walk)
    requires count > 0
    ensures w.Valid() && w.count == count && w.shift == shift && w.g == cycles
  {
    cycles := GreatestCommonDivisor(count, shift);
    w := FactoredWalk(count, shift);
  }

  /** Rotates the blocks left by `shift` places, one pass per residue class. */
  method RotateKeyBlocksLeft(a: array<byte>, base: nat, count: nat, width: nat, shift: nat)
    requires 0 < count && base + count * width <= a.Length
    modifies a
    ensures Blocks(a[..], base, width, count) == RotateLeft(old(Blocks(a[..], base, width, count)), shift)
    ensures OutsideKept(old(a[..]), a[..], base, count * width)
  {
    ghost var size: nat := count * width;
    ghost var was := Blocks(a[..], base, width, count);
    var cycles, w := CountCycles(count, shift);
    FirstAndLast(was, was, w);
    var cycle: nat := 0;
    while cycle < cycles
      invariant cycle <= cycles
      invariant Walked(was, Blocks(a[..], base, width, count), w, cycle, 0)
      invariant OutsideKept(old(a[..]), a[..], base, size)
    {
      WalkCycle(a, base, count, width, shift, cycle, was, w);
      cycle := cycle + 1;
    }
    FirstAndLast(was, Blocks(a[..], base, width, count), w);
  }
}
