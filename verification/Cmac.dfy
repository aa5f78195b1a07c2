/** CMAC over any block cipher: the reference form of section 2.4 of RFC 4493, and the
    buffered computation over a list of segments that the AES and DES variants share. */
module Cmac {
  import opened Bytes
  import opened Arithmetic

  type Octets = seq<bv8>

  /** A keyed block cipher; it may fail. `size` is 16 with `feedback` 0x87 for AES and
      8 with 0x1B for DES. */
  datatype Cipher = Cipher(size: nat, feedback: bv8, crypt: Octets -> Option<Octets>)

  ghost predicate IsCipher(c: Cipher)
  {
    && c.size > 0
    && forall x :: |x| == c.size && c.crypt(x).Some? ==> |c.crypt(x).value| == c.size
  }

  datatype Mode = Standard | PrePadded

  datatype Context = Context(cipher: Cipher, k1: Octets, k2: Octets)

  ghost predicate IsContext(c: Context)
  {
    IsCipher(c.cipher) && |c.k1| == |c.k2| == c.cipher.size
  }

  function Blank(n: nat): (z: Octets)
    ensures |z| == n
  {
    seq(n, _ => 0)
  }

  function Xor(a: Octets, b: Octets): (x: Octets)
    requires |a| == |b|
    ensures |x| == |a|
    ensures forall i :: 0 <= i < |a| ==> x[i] == a[i] ^ b[i]
  {
    seq(|a|, i requires 0 <= i < |a| => a[i] ^ b[i])
  }

  /** `m` followed by a one bit and zeros, to `n` octets. */
  function Padded(m: Octets, n: nat): (p: Octets)
    requires |m| < n
    ensures |p| == n
  {
    m + [0x80] + Blank(n - |m| - 1)
  }

  // ---- Reference ----------------------------------------------------------------------

  /** The masked last block. A message that brings its own padding selects the second
      subkey and must end on a block boundary. */
  function LastBlock(c: Context, mode: Mode, m: Octets): (b: Option<Octets>)
    requires |c.k1| == |c.k2| == c.cipher.size >= |m|
    ensures b.Some? ==> |b.value| == c.cipher.size
  {
    var n := c.cipher.size;
    match mode
    case PrePadded => if |m| == n && n > 0 then Some(Xor(m, c.k2)) else None
    case Standard => if |m| == n then Some(Xor(m, c.k1)) else Some(Xor(Padded(m, n), c.k2))
  }

  /** CMAC of `m` from chaining value `x`. */
  ghost function Mac(c: Context, mode: Mode, x: Octets, m: Octets): (t: Option<Octets>)
    requires IsContext(c) && |x| == c.cipher.size
    ensures t.Some? ==> |t.value| == c.cipher.size
    decreases |m|
  {
    var n := c.cipher.size;
    if |m| <= n then
      var last := LastBlock(c, mode, m);
      if last.None? then None else c.cipher.crypt(Xor(x, last.value))
    else
      var y := c.cipher.crypt(Xor(x, m[..n]));
      if y.None? then None else Mac(c, mode, y.value, m[n..])
  }

  // ---- The buffered loop ----------------------------------------------------------------

  method XorInPlace(a: array<bv8>, b: seq<bv8>)
    requires |b| == a.Length
    modifies a
    ensures a[..] == Xor(old(a[..]), b)
  {
    for i := 0 to a.Length
      invariant forall k :: 0 <= k < i ==> a[k] == old(a[k]) ^ b[k]
      invariant forall k :: i <= k < a.Length ==> a[k] == old(a[k])
    {
      a[i] := a[i] ^ b[i];
    }
  }

  /** Absorbs one block into the chaining value. */
  method Absorb(c: Context, x: array<bv8>, block: Octets) returns (ok: bool)
    requires IsContext(c) && x.Length == |block| == c.cipher.size
    modifies x
    ensures ok == c.cipher.crypt(Xor(old(x[..]), block)).Some?
    ensures ok ==> x[..] == c.cipher.crypt(Xor(old(x[..]), block)).value
  {
    XorInPlace(x, block);
    var y := c.cipher.crypt(x[..]);
    if y.None? { return false; }
    Fill(x, 0, y.value);
    assert x[..] == x[0..|y.value|];
    return true;
  }

  method Fill(a: array<bv8>, at: nat, s: Octets)
    requires at + |s| <= a.Length
    modifies a
    ensures a[at..at + |s|] == s
    ensures a[..at] == old(a[..at]) && a[at + |s|..] == old(a[at + |s|..])
  {
    for i := 0 to |s|
      invariant forall k :: 0 <= k < a.Length ==> a[k] == if at <= k < at + i then s[k - at] else old(a[k])
    {
      a[at + i] := s[i];
    }
  }

  /** One pass over a segment. Whatever block it absorbs has octets behind it, so the
      value owed for the whole message does not change. */
  method Feed(c: Context, mode: Mode, x: array<bv8>, pending: array<bv8>, filled: nat,
              data: Octets, ghost tail: Octets) returns (ok: bool, filled': nat)
    requires IsContext(c) && x.Length == pending.Length == c.cipher.size && filled <= pending.Length && x != pending
    modifies x, pending
    ensures filled' <= pending.Length
    ensures ok ==> Mac(c, mode, x[..], pending[..filled'] + tail)
                   == old(Mac(c, mode, x[..], pending[..filled] + data + tail))
    ensures !ok ==> old(Mac(c, mode, x[..], pending[..filled] + data + tail)) == None
  {
    hide Mac;
    filled' := filled;
    var at := 0;
    ghost var owed := Mac(c, mode, x[..], pending[..filled] + data + tail);
    assert data[0..] == data;
    while at < |data|
      invariant at <= |data| && filled' <= pending.Length
      invariant Mac(c, mode, x[..], pending[..filled'] + data[at..] + tail) == owed
    {
      ok, filled', at := FeedOnce(c, mode, x, pending, filled', data, at, tail);
      if !ok { return false, 0; }
    }
    assert pending[..filled'] + data[at..] + tail == pending[..filled'] + tail;
    ok := true;
  }

  /** One turn of the pass: a whole block straight from the segment, or as much of it as the
      pending block has room for. */
  method FeedOnce(c: Context, mode: Mode, x: array<bv8>, pending: array<bv8>, filled: nat,
                  data: Octets, at: nat, ghost tail: Octets) returns (ok: bool, filled': nat, at': nat)
    requires IsContext(c) && x.Length == pending.Length == c.cipher.size && filled <= pending.Length && x != pending
    requires at < |data|
    modifies x, pending
    ensures filled' <= pending.Length && (ok ==> at < at' <= |data|)
    ensures ok ==> Mac(c, mode, x[..], pending[..filled'] + data[at'..] + tail)
                   == old(Mac(c, mode, x[..], pending[..filled] + data[at..] + tail))
    ensures !ok ==> old(Mac(c, mode, x[..], pending[..filled] + data[at..] + tail)) == None
  {
    hide Mac;
    var n := c.cipher.size;
    ok, filled', at' := true, filled, at;
    if filled == 0 && |data| - at > n {
      assert pending[..0] + data[at..] + tail == data[at..at + n] + (data[at + n..] + tail);
      ok := AbsorbNext(c, mode, x, data[at..at + n], data[at + n..] + tail);
      at' := at + n;
      assert pending[..0] + data[at'..] + tail == data[at'..] + tail;
      return;
    }
    if filled == n {
      assert pending[..n] + data[at..] + tail == pending[..] + (data[at..] + tail);
      ok := AbsorbNext(c, mode, x, pending[..], data[at..] + tail);
      if !ok { return; }
      filled' := 0;
      assert pending[..0] + data[at..] + tail == data[at..] + tail;
    }
    var take := n - filled';
    if take > |data| - at { take := |data| - at; }
    RegroupTake(pending[..filled'], data[at..], take, tail);
    assert data[at..][..take] == data[at..at + take] && data[at..][take..] == data[at + take..];
    TakeInto(pending, filled', data[at..at + take]);
    filled', at' := filled' + take, at + take;
  }

  lemma RegroupTake(p: Octets, d: Octets, take: nat, tail: Octets)
    requires take <= |d|
    ensures (p + d[..take]) + d[take..] + tail == p + d + tail
  {
    assert d[..take] + d[take..] == d;
  }

  method TakeInto(pending: array<bv8>, filled: nat, s: Octets)
    requires filled + |s| <= pending.Length
    modifies pending
    ensures pending[..filled + |s|] == old(pending[..filled]) + s
  {
    Fill(pending, filled, s);
    assert pending[..filled + |s|] == pending[..filled] + pending[filled..filled + |s|];
  }

  method AbsorbNext(c: Context, mode: Mode, x: array<bv8>, block: Octets, ghost behind: Octets) returns (ok: bool)
    requires IsContext(c) && x.Length == |block| == c.cipher.size && behind != []
    modifies x
    ensures ok ==> Mac(c, mode, x[..], behind) == old(Mac(c, mode, x[..], block + behind))
    ensures !ok ==> old(Mac(c, mode, x[..], block + behind)) == None
  {
    AbsorbStep(c, mode, x[..], block, behind);
    ok := Absorb(c, x, block);
  }

  /** A full block with something behind it is absorbed, never held for the end. */
  lemma AbsorbStep(c: Context, mode: Mode, x: Octets, block: Octets, behind: Octets)
    requires IsContext(c) && |x| == |block| == c.cipher.size && behind != []
    ensures Mac(c, mode, x, block + behind)
            == var y := c.cipher.crypt(Xor(x, block)); if y.None? then None else Mac(c, mode, y.value, behind)
  {
    var n := c.cipher.size;
    assert (block + behind)[..n] == block && (block + behind)[n..] == behind;
  }

  /** CMAC of a list of segments: any split of the message, empty segments included,
      gives the value of the whole. A failure leaves a zero value. */
  method Compute(c: Context, mode: Mode, iv: Octets, segments: seq<Octets>) returns (ok: bool, tag: Octets)
    requires IsContext(c) && |iv| == c.cipher.size
    ensures ok == Mac(c, mode, iv, Concat(segments)).Some?
    ensures tag == if ok then Mac(c, mode, iv, Concat(segments)).value else Blank(c.cipher.size)
  {
    var n := c.cipher.size;
    var x, pending := new bv8[n], new bv8[n];
    Fill(x, 0, iv);
    assert x[..] == x[0..|iv|];
    var filled: nat := 0;
    ghost var owed := Mac(c, mode, iv, Concat(segments));
    assert pending[..0] + Concat(segments[0..]) == Concat(segments);
    for i := 0 to |segments|
      invariant filled <= n
      invariant Mac(c, mode, x[..], pending[..filled] + Concat(segments[i..])) == owed
    {
      assert segments[i..][0] == segments[i] && segments[i..][1..] == segments[i + 1..];
      ghost var tail := Concat(segments[i + 1..]);
      assert pending[..filled] + Concat(segments[i..]) == pending[..filled] + segments[i] + tail;
      var fed;
      fed, filled := Feed(c, mode, x, pending, filled, segments[i], tail);
      if !fed { return false, Blank(n); }
    }
    assert pending[..filled] + Concat(segments[|segments|..]) == pending[..filled];
    ok, tag := Finish(c, mode, x, pending, filled);
  }

  method Finish(c: Context, mode: Mode, x: array<bv8>, pending: array<bv8>, filled: nat) returns (ok: bool, tag: Octets)
    requires IsContext(c) && x.Length == pending.Length == c.cipher.size && filled <= pending.Length && x != pending
    modifies x, pending
    ensures ok == old(Mac(c, mode, x[..], pending[..filled])).Some?
    ensures tag == if ok then old(Mac(c, mode, x[..], pending[..filled])).value else Blank(c.cipher.size)
  {
    var n := c.cipher.size;
    ghost var m := pending[..filled];
    ok, tag := false, Blank(n);
    if mode == PrePadded {
      if filled != n { return; }
      XorInPlace(pending, c.k2);
    } else if filled == n {
      XorInPlace(pending, c.k1);
    } else {
      Fill(pending, filled, [0x80] + Blank(n - filled - 1));
      assert pending[..] == pending[..filled] + pending[filled..];
      assert pending[..] == Padded(m, n);
      XorInPlace(pending, c.k2);
    }
    assert filled == n ==> m == old(pending[..]);
    assert Some(pending[..]) == LastBlock(c, mode, m);
    ok := Absorb(c, x, pending[..]);
    if ok { tag := x[..]; }
  }

  // ---- Messages that bring their own padding --------------------------------------------

  /** `m` padded up to the next block boundary. */
  function PaddedUp(m: Octets, n: nat): Octets
    requires n > 0
    decreases |m|
  {
    if |m| < n then Padded(m, n) else m[..n] + PaddedUp(m[n..], n)
  }

  lemma ShortPrePadded(c: Context, x: Octets, m: Octets)
    requires IsContext(c) && |x| == c.cipher.size && |m| < c.cipher.size
    ensures Mac(c, PrePadded, x, PaddedUp(m, c.cipher.size)) == Mac(c, Standard, x, m)
  {
    hide Xor;
  }

  lemma {:induction false} PaddedUpNotEmpty(m: Octets, n: nat)
    requires n > 0
    ensures PaddedUp(m, n) != []
  {
    if |m| >= n { PaddedUpNotEmpty(m[n..], n); }
  }

  /** A message padded beforehand has the value the standard mode gives the bare one,
      unless the bare one already ends on a block boundary. */
  lemma {:induction false} PrePaddedIsStandard(c: Context, x: Octets, m: Octets)
    requires IsContext(c) && |x| == c.cipher.size
    requires m == [] || |m| % c.cipher.size != 0
    ensures Mac(c, PrePadded, x, PaddedUp(m, c.cipher.size)) == Mac(c, Standard, x, m)
    decreases |m|
  {
    hide Padded, Xor, Mac;
    var n := c.cipher.size;
    if |m| < n {
      ShortPrePadded(c, x, m);
    } else {
      ModShift(|m| - n, 1, n);
      var block, rest := m[..n], m[n..];
      assert m == block + rest && rest != [];
      PaddedUpNotEmpty(rest, n);
      AbsorbStep(c, Standard, x, block, rest);
      AbsorbStep(c, PrePadded, x, block, PaddedUp(rest, n));
      var y := c.cipher.crypt(Xor(x, block));
      if y.Some? { PrePaddedIsStandard(c, y.value, rest); }
    }
  }

  // ---- Block by block, as the standard writes it ------------------------------------------

  /** Cipher block chaining over whole blocks. */
  ghost function Chain(c: Cipher, x: Octets, m: Octets): (y: Option<Octets>)
    requires IsCipher(c) && |x| == c.size && |m| % c.size == 0
    ensures y.Some? ==> |y.value| == c.size
    decreases |m|
  {
    if m == [] then Some(x)
    else
      WholeBlock(|m|, c.size);
      var y := c.crypt(Xor(x, m[..c.size]));
      if y.None? then None else Chain(c, y.value, m[c.size..])
  }

  lemma WholeBlock(size: nat, n: nat)
    requires n > 0 && size > 0 && size % n == 0
    ensures size >= n && (size - n) % n == 0
  {
    ModShift(size - n, 1, n);
  }

  /** The chain of `front`, then `last` and a subkey added, then enciphered. */
  ghost function Closed(c: Context, x: Octets, front: Octets, last: Octets, subkey: Octets): Option<Octets>
    requires IsContext(c) && |x| == |last| == |subkey| == c.cipher.size && |front| % c.cipher.size == 0
  {
    var y := Chain(c.cipher, x, front);
    if y.None? then None else c.cipher.crypt(Xor(Xor(y.value, last), subkey))
  }

  lemma XorAssociates(a: Octets, b: Octets, c: Octets)
    requires |a| == |b| == |c|
    ensures Xor(Xor(a, b), c) == Xor(a, Xor(b, c))
  {
    forall i | 0 <= i < |a|
      ensures Xor(Xor(a, b), c)[i] == Xor(a, Xor(b, c))[i]
    {
      OctetsAssociate(a[i], b[i], c[i]);
    }
  }

  lemma OctetsAssociate(a: bv8, b: bv8, c: bv8)
    ensures (a ^ b) ^ c == a ^ (b ^ c)
  {
  }

  lemma ChainFirst(c: Context, x: Octets, block: Octets, front: Octets, last: Octets, subkey: Octets)
    requires IsContext(c) && |x| == |block| == |last| == |subkey| == c.cipher.size && |front| % c.cipher.size == 0
    ensures |block + front| % c.cipher.size == 0
    ensures Closed(c, x, block + front, last, subkey) ==
      var y := c.cipher.crypt(Xor(x, block)); if y.None? then None else Closed(c, y.value, front, last, subkey)
  {
    ModShift(|front|, 1, c.cipher.size);
    assert (block + front)[..c.cipher.size] == block && (block + front)[c.cipher.size..] == front;
  }

  /** A message of whole blocks is chained but for its last block, which the first subkey
      masks; the second one if the message brought its own padding. */
  lemma {:induction false} MacOfWholeBlocks(c: Context, x: Octets, front: Octets, last: Octets)
    requires IsContext(c) && |x| == |last| == c.cipher.size && |front| % c.cipher.size == 0
    ensures Mac(c, Standard, x, front + last) == Closed(c, x, front, last, c.k1)
    ensures Mac(c, PrePadded, x, front + last) == Closed(c, x, front, last, c.k2)
    decreases |front|
  {
    hide Xor, Mac, Closed;
    var n := c.cipher.size;
    if front == [] {
      MacOfOneBlock(c, x, last);
      assert [] + last == last;
    } else {
      WholeBlock(|front|, n);
      var block, rest := front[..n], front[n..];
      assert front == block + rest && front + last == block + (rest + last);
      AbsorbStep(c, Standard, x, block, rest + last);
      AbsorbStep(c, PrePadded, x, block, rest + last);
      ChainFirst(c, x, block, rest, last, c.k1);
      ChainFirst(c, x, block, rest, last, c.k2);
      var y := c.cipher.crypt(Xor(x, block));
      if y.Some? { MacOfWholeBlocks(c, y.value, rest, last); }
    }
  }

  lemma MacOfOneBlock(c: Context, x: Octets, last: Octets)
    requires IsContext(c) && |x| == |last| == c.cipher.size
    ensures Mac(c, Standard, x, last) == Closed(c, x, [], last, c.k1)
    ensures Mac(c, PrePadded, x, last) == Closed(c, x, [], last, c.k2)
  {
    XorAssociates(x, last, c.k1);
    XorAssociates(x, last, c.k2);
  }

  /** What is left behind the last whole block, a one bit, and zeros. */
  function Filled(rest: Octets, n: nat): (b: Octets)
    requires |rest| < n
    ensures |b| == n && b[..|rest|] == rest && b[|rest|] == 0x80
    ensures forall i :: |rest| < i < n ==> b[i] == 0
  {
    rest + seq(n - |rest|, i => if i == 0 then 0x80 else 0)
  }

  /** Any other message is chained up to its last whole block; what is left, possibly
      nothing, is filled up with a one bit and zeros and masked by the second subkey. */
  lemma {:induction false} MacOfPartialBlock(c: Context, x: Octets, front: Octets, rest: Octets)
    requires IsContext(c) && |x| == c.cipher.size && |front| % c.cipher.size == 0 && |rest| < c.cipher.size
    requires rest == [] ==> front == []
    ensures Mac(c, Standard, x, front + rest) == Closed(c, x, front, Filled(rest, c.cipher.size), c.k2)
    decreases |front|
  {
    hide Xor, Mac, Closed, Filled;
    var n := c.cipher.size;
    if front == [] {
      MacOfShort(c, x, rest);
      assert [] + rest == rest;
    } else {
      WholeBlock(|front|, n);
      var block, more := front[..n], front[n..];
      assert front == block + more && front + rest == block + (more + rest);
      AbsorbStep(c, Standard, x, block, more + rest);
      ChainFirst(c, x, block, more, Filled(rest, n), c.k2);
      var y := c.cipher.crypt(Xor(x, block));
      if y.Some? { MacOfPartialBlock(c, y.value, more, rest); }
    }
  }

  lemma MacOfShort(c: Context, x: Octets, rest: Octets)
    requires IsContext(c) && |x| == c.cipher.size && |rest| < c.cipher.size
    ensures Mac(c, Standard, x, rest) == Closed(c, x, [], Filled(rest, c.cipher.size), c.k2)
  {
    assert Padded(rest, c.cipher.size) == Filled(rest, c.cipher.size);
    XorAssociates(x, Filled(rest, c.cipher.size), c.k2);
  }
}
