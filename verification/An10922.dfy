/** Key diversification by CMAC over a two-block message that is padded beforehand. */
module An10922 {
  import opened Bytes
  import opened Cmac
  import opened CmacSubkeys
  import Arithmetic

  datatype Algorithm = Aes128 | Tdea2 | Tdea3

  function KeyLength(a: Algorithm): nat
  {
    if a == Tdea3 then 24 else 16
  }

  function BlockSize(a: Algorithm): nat
  {
    if a == Aes128 then 16 else 8
  }

  /** The constant that starts the message for one block of the new key. */
  function Constant(a: Algorithm, part: nat): bv8
    requires part < 3
  {
    match a
    case Aes128 => 0x01
    case Tdea2 => if part == 0 then 0x21 else if part == 1 then 0x22 else 0x23
    case Tdea3 => if part == 0 then 0x31 else if part == 1 then 0x32 else 0x33
  }

  function Message(n: nat, constant: bv8, input: Octets): (m: Octets)
    requires |input| < 2 * n
    ensures |m| == 2 * n
  {
    var m := [constant] + input;
    if |m| < 2 * n then Padded(m, 2 * n) else m
  }

  function ModeFor(n: nat, input: Octets): Mode
  {
    if |input| + 1 < 2 * n then PrePadded else Standard
  }

  /** One block of diversified key. */
  ghost function Part(c: Context, constant: bv8, input: Octets): (t: Option<Octets>)
    requires IsContext(c) && |input| < 2 * c.cipher.size
    ensures t.Some? ==> |t.value| == c.cipher.size
  {
    var n := c.cipher.size;
    Mac(c, ModeFor(n, input), Blank(n), Message(n, constant, input))
  }

  lemma MessageIsPaddedUp(n: nat, constant: bv8, input: Octets)
    requires n <= |input| && |input| + 1 < 2 * n
    ensures Message(n, constant, input) == PaddedUp([constant] + input, n)
    ensures |[constant] + input| % n != 0
  {
    var m := [constant] + input;
    assert PaddedUp(m, n) == m[..n] + Padded(m[n..], n);
    assert |m| == 1 * n + (|m| - n);
    Arithmetic.DivModUnique(|m|, 1, n, |m| - n);
  }

  /** With at least a block of input the padding falls in the last block, and the result
      is the plain CMAC of the constant and the input. */
  lemma PartIsCmac(c: Context, constant: bv8, input: Octets)
    requires IsContext(c) && c.cipher.size <= |input| < 2 * c.cipher.size
    ensures Part(c, constant, input) == Mac(c, Standard, Blank(c.cipher.size), [constant] + input)
  {
    hide Mac, PaddedUp, Padded, IsContext;
    var n := c.cipher.size;
    if |input| + 1 < 2 * n {
      MessageIsPaddedUp(n, constant, input);
      PrePaddedIsStandard(c, Blank(n), [constant] + input);
    }
  }

  method BuildMessage(n: nat, constant: bv8, input: Octets) returns (message: array<bv8>)
    requires |input| < 2 * n
    ensures fresh(message) && message[..] == Message(n, constant, input)
  {
    message := new bv8[2 * n](_ => 0);
    message[0] := constant;
    Fill(message, 1, input);
    if |input| + 1 < 2 * n { message[|input| + 1] := 0x80; }
    ghost var m := [constant] + input;
    assert message[1..1 + |input|] == input;
    assert forall k :: 1 <= k <= |input| ==> message[k] == message[1..1 + |input|][k - 1];
    assert message[..] == Message(n, constant, input);
  }

  method Diversify1(c: Context, constant: bv8, input: Octets) returns (ok: bool, block: Octets)
    requires IsContext(c) && |input| < 2 * c.cipher.size
    ensures ok == Part(c, constant, input).Some?
    ensures block == if ok then Part(c, constant, input).value else Blank(c.cipher.size)
  {
    var n := c.cipher.size;
    var message := BuildMessage(n, constant, input);
    var segments := [message[..]];
    assert segments[1..] == [] && Concat(segments) == message[..];
    ok, block := Compute(c, ModeFor(n, input), Blank(n), segments);
  }

  /** The parity bit of each octet of the first block carries the key version of the
      master key. */
  function Versioned(block: Octets, master: Octets): (v: Octets)
    requires |block| <= |master|
    ensures |v| == |block|
  {
    seq(|block|, i requires 0 <= i < |block| => (block[i] & 0xFE) | (master[i] & 0x01))
  }

  function PartCount(a: Algorithm): nat
  {
    if a == Aes128 then 1 else if a == Tdea2 then 2 else 3
  }

  /** The first `count` blocks, each from its own constant. */
  ghost function Parts(a: Algorithm, c: Context, input: Octets, count: nat): (k: Option<Octets>)
    requires IsContext(c) && |input| < 2 * c.cipher.size && count <= 3
    ensures k.Some? ==> |k.value| == count * c.cipher.size
  {
    if count == 0 then Some([])
    else
      var before, t := Parts(a, c, input, count - 1), Part(c, Constant(a, count - 1), input);
      if before.None? || t.None? then None else Some(before.value + t.value)
  }

  ghost function DiversifiedKey(a: Algorithm, c: Context, master: Octets, input: Octets): (k: Option<Octets>)
    requires IsContext(c) && c.cipher.size == BlockSize(a) && |input| < 2 * c.cipher.size
    requires |master| == KeyLength(a)
    ensures k.Some? ==> |k.value| == KeyLength(a)
  {
    var blocks := Parts(a, c, input, PartCount(a));
    if blocks.None? || a == Aes128 then blocks
    else Some(Versioned(blocks.value[..8], master) + blocks.value[8..])
  }

  lemma {:induction false} PartsFail(a: Algorithm, c: Context, input: Octets, p: nat, count: nat)
    requires IsContext(c) && |input| < 2 * c.cipher.size && p < count <= 3
    requires Part(c, Constant(a, p), input).None?
    ensures Parts(a, c, input, count).None?
  {
    if p < count - 1 { PartsFail(a, c, input, p, count - 1); }
  }

  method ComputeParts(a: Algorithm, c: Context, input: Octets) returns (ok: bool, key: Octets)
    requires IsContext(c) && |input| < 2 * c.cipher.size
    ensures ok == Parts(a, c, input, PartCount(a)).Some?
    ensures ok ==> Some(key) == Parts(a, c, input, PartCount(a))
  {
    hide Part;
    key := [];
    for p := 0 to PartCount(a)
      invariant Parts(a, c, input, p) == Some(key)
    {
      var done, block := Diversify1(c, Constant(a, p), input);
      if !done {
        PartsFail(a, c, input, p, PartCount(a));
        return false, key;
      }
      key := key + block;
    }
    ok := true;
  }

  method SetVersion(key: array<bv8>, master: Octets)
    requires 8 <= key.Length == |master|
    modifies key
    ensures key[..] == Versioned(old(key[..8]), master) + old(key[8..])
  {
    for i := 0 to 8
      invariant forall k :: 0 <= k < key.Length ==>
        key[k] == if k < i then (old(key[k]) & 0xFE) | (master[k] & 0x01) else old(key[k])
    {
      key[i] := (key[i] & 0xFE) | (master[i] & 0x01);
    }
  }

  method DiversifyParts(a: Algorithm, c: Context, master: Octets, input: Octets) returns (ok: bool, key: Octets)
    requires IsContext(c) && c.cipher.size == BlockSize(a) && |input| < 2 * c.cipher.size
    requires |master| == KeyLength(a)
    ensures ok == DiversifiedKey(a, c, master, input).Some?
    ensures ok ==> Some(key) == DiversifiedKey(a, c, master, input)
  {
    hide Parts, Versioned;
    ok, key := ComputeParts(a, c, input);
    if !ok || a == Aes128 { return; }
    var out := new bv8[|key|](i requires 0 <= i < |key| => key[i]);
    assert out[..] == key;
    SetVersion(out, master);
    key := out[..];
  }

  /** The block ciphers; a key may be refused. */
  datatype Backend = Backend(aes: Octets -> Option<Octets -> Option<Octets>>, des: Octets -> Option<Octets -> Option<Octets>>)

  ghost predicate IsBackend(b: Backend)
  {
    && (forall k, x :: b.aes(k).Some? && b.aes(k).value(x).Some? ==> |b.aes(k).value(x).value| == |x|)
    && (forall k, x :: b.des(k).Some? && b.des(k).value(x).Some? ==> |b.des(k).value(x).value| == |x|)
  }

  function CipherFor(b: Backend, a: Algorithm, key: Octets): Option<Cipher>
  {
    if a == Aes128 then
      if b.aes(key).None? then None else Some(Cipher(16, 0x87, b.aes(key).value))
    else
      if b.des(key).None? then None else Some(Cipher(8, 0x1B, b.des(key).value))
  }

  function InputMax(a: Algorithm): nat
  {
    if a == Aes128 then 31 else 15
  }

  predicate Acceptable(a: Algorithm, master: Octets, input: Octets)
  {
    |master| == KeyLength(a) && 1 <= |input| <= InputMax(a)
  }

  /** A refused or failed diversification leaves a zero key; otherwise the key is the
      one the master key's own context determines. */
  method Diversify(b: Backend, a: Algorithm, master: Octets, input: Octets)
    returns (ok: bool, key: Octets, ghost context: Option<Context>)
    requires IsBackend(b)
    ensures ok ==> Acceptable(a, master, input) && context.Some?
    ensures ok ==> |key| == |master| == (if a == Tdea3 then 24 else 16) && 1 <= |input| <= (if a == Aes128 then 31 else 15)
    ensures context.Some? ==> context.value.cipher.feedback == (if a == Aes128 then 0x87 else 0x1B)
    ensures context.Some? ==> Some(context.value.cipher) == CipherFor(b, a, master) && Keyed(context.value)
    ensures context.Some? ==> |input| < 2 * context.value.cipher.size && context.value.cipher.size == BlockSize(a)
    ensures ok ==> Some(key) == DiversifiedKey(a, context.value, master, input)
    ensures !ok ==> key == Blank(KeyLength(a))
    ensures !ok && context.Some? ==> |master| == KeyLength(a) && DiversifiedKey(a, context.value, master, input).None?
    ensures |master| == (if a == Tdea3 then 24 else 16) && 1 <= |input| <= (if a == Aes128 then 31 else 15) && context.None? ==>
      CipherFor(b, a, master).None? || CipherFor(b, a, master).value.crypt(Blank(BlockSize(a))).None?
  {
    ok, key, context := false, Blank(KeyLength(a)), None;
    if !Acceptable(a, master, input) { return; }
    var cipher := CipherFor(b, a, master);
    if cipher.None? { return; }
    var c := Init(cipher.value);
    context := c;
    if c.None? { return; }
    var done, candidate := DiversifyParts(a, c.value, master, input);
    if done { ok, key := true, candidate; }
  }

  /** AES diversification of 16 to 31 octets is the CMAC of 01 and the input. */
  lemma AesDiversificationIsCmac(c: Context, master: Octets, input: Octets)
    requires IsContext(c) && c.cipher.size == 16 && 16 <= |input| <= 31 && |master| == 16
    ensures DiversifiedKey(Aes128, c, master, input) == Mac(c, Standard, Blank(16), [0x01] + input)
  {
    hide Part, Mac;
    PartIsCmac(c, 0x01, input);
    assert Parts(Aes128, c, input, 0) == Some([]);
    var t := Part(c, 0x01, input);
    assert t.Some? ==> [] + t.value == t.value;
  }

  /** A TDEA key diversified from 8 to 15 octets is made of plain CMACs too. */
  lemma TdeaPartIsCmac(a: Algorithm, c: Context, input: Octets, count: nat)
    requires IsContext(c) && c.cipher.size == 8 && 8 <= |input| <= 15 && 0 < count <= 3
    ensures Parts(a, c, input, count)
            == var before, t := Parts(a, c, input, count - 1), Mac(c, Standard, Blank(8), [Constant(a, count - 1)] + input);
               if before.None? || t.None? then None else Some(before.value + t.value)
  {
    hide Part, Mac;
    PartIsCmac(c, Constant(a, count - 1), input);
  }

  /** The two blocks the code of one part is taken over. */
  function Blocks(n: nat, constant: bv8, input: Octets): (m: Octets)
    requires |input| < 2 * n
    ensures |m| == 2 * n && m[0] == constant && m[1..1 + |input|] == input
    ensures forall i :: 1 + |input| <= i < 2 * n ==> m[i] == if i == 1 + |input| then 0x80 else 0
  {
    [constant] + input + seq(2 * n - 1 - |input|, i => if i == 0 then 0x80 else 0)
  }

  /** A part chains the first block and closes with the second, masked by the second subkey
      exactly when padding was needed, however short the input. */
  lemma PartIsChained(c: Context, constant: bv8, input: Octets)
    requires IsContext(c) && |input| < 2 * c.cipher.size
    ensures var n := c.cipher.size; var m := Blocks(n, constant, input);
      && n % n == 0
      && Part(c, constant, input)
         == Closed(c, Blank(n), m[..n], m[n..], if 1 + |input| < 2 * n then c.k2 else c.k1)
  {
    hide Mac, Closed;
    var n := c.cipher.size;
    var m := Blocks(n, constant, input);
    Arithmetic.DivModUnique(n, 1, n, 0);
    assert Message(n, constant, input) == m;
    assert m == m[..n] + m[n..];
    MacOfWholeBlocks(c, Blank(n), m[..n], m[n..]);
  }

  /** The version bits come from the master key and the others from the block. */
  lemma VersionBits(block: Octets, master: Octets, i: nat)
    requires i < |block| <= |master|
    ensures Versioned(block, master)[i] & 0x01 == master[i] & 0x01
    ensures Versioned(block, master)[i] & 0xFE == block[i] & 0xFE
  {
    OctetVersion(block[i], master[i]);
  }

  lemma OctetVersion(b: bv8, m: bv8)
    ensures ((b & 0xFE) | (m & 0x01)) & 0x01 == m & 0x01 && ((b & 0xFE) | (m & 0x01)) & 0xFE == b & 0xFE
  {
  }

  /** A two-key TDEA key is made from 21 and 22. */
  lemma TwoKeyTdea(c: Context, master: Octets, input: Octets)
    requires IsContext(c) && c.cipher.size == 8 && |input| < 16 && |master| == 16
    ensures DiversifiedKey(Tdea2, c, master, input) ==
      var p, q := Part(c, 0x21, input), Part(c, 0x22, input);
      if p.None? || q.None? then None else Some(Versioned(p.value, master) + q.value)
  {
    hide Part, Versioned;
    ThreeParts(Tdea2, c, input);
    var p, q := Part(c, 0x21, input), Part(c, 0x22, input);
    if p.Some? && q.Some? {
      assert (p.value + q.value)[..8] == p.value && (p.value + q.value)[8..] == q.value;
    }
  }

  /** A three-key TDEA key is made from 31, 32 and 33. */
  lemma ThreeKeyTdea(c: Context, master: Octets, input: Octets)
    requires IsContext(c) && c.cipher.size == 8 && |input| < 16 && |master| == 24
    ensures DiversifiedKey(Tdea3, c, master, input) ==
      var p, q, r := Part(c, 0x31, input), Part(c, 0x32, input), Part(c, 0x33, input);
      if p.None? || q.None? || r.None? then None else Some(Versioned(p.value, master) + q.value + r.value)
  {
    hide Part, Versioned;
    ThreeParts(Tdea3, c, input);
    var p, q, r := Part(c, 0x31, input), Part(c, 0x32, input), Part(c, 0x33, input);
    if p.Some? && q.Some? && r.Some? {
      var all := p.value + q.value + r.value;
      assert all[..8] == p.value && all[8..] == q.value + r.value;
      Associative(Versioned(p.value, master), q.value, r.value);
    }
  }

  lemma ThreeParts(a: Algorithm, c: Context, input: Octets)
    requires IsContext(c) && |input| < 2 * c.cipher.size
    ensures var p, q, r := Part(c, Constant(a, 0), input), Part(c, Constant(a, 1), input), Part(c, Constant(a, 2), input);
      && Parts(a, c, input, 2) == (if p.None? || q.None? then None else Some(p.value + q.value))
      && Parts(a, c, input, 3)
         == (if p.None? || q.None? || r.None? then None else Some(p.value + q.value + r.value))
  {
    hide Part, Constant;
    assert Parts(a, c, input, 0) == Some([]);
    var p := Part(c, Constant(a, 0), input);
    assert p.Some? ==> [] + p.value == p.value;
    assert Parts(a, c, input, 1) == p;
    assert Parts(a, c, input, 2).Some? <==> p.Some? && Part(c, Constant(a, 1), input).Some?;
  }
}
