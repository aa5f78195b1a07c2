/** Subkeys as doublings in the field of section 6.1 of NIST SP 800-38B, worked out on
    octets by shifting in place. */
module CmacSubkeys {
  import opened Bytes
  import opened Cmac

  function Bit(v: bv8, k: nat): bool
    requires k < 8
  {
    v & Mask(k) != 0
  }

  function Mask(k: nat): bv8
    requires k < 8
  {
    if k == 0 then 0x80 else if k == 1 then 0x40 else if k == 2 then 0x20 else if k == 3 then 0x10
    else if k == 4 then 0x08 else if k == 5 then 0x04 else if k == 6 then 0x02 else 0x01
  }

  /** The bits of an octet string, most significant first: the coefficients of a
      polynomial over the field of two elements. */
  function Bits(s: Octets): (b: seq<bool>)
    ensures |b| == 8 * |s|
  {
    seq(8 * |s|, j requires 0 <= j < 8 * |s| => Bit(s[j / 8], j % 8))
  }

  function Sum(a: seq<bool>, b: seq<bool>): (c: seq<bool>)
    requires |a| == |b|
    ensures |c| == |a|
  {
    seq(|a|, i requires 0 <= i < |a| => a[i] != b[i])
  }

  /** The field polynomial: x to the block width, plus `feedback`. */
  function Modulus(n: nat, feedback: bv8): (m: seq<bool>)
    requires n > 0
    ensures |m| == 8 * n + 1 && m[0]
  {
    [true] + Bits(Blank(n - 1) + [feedback])
  }

  /** A polynomial times x, reduced by the field polynomial. */
  function TimesX(p: seq<bool>, modulus: seq<bool>): (q: seq<bool>)
    requires |modulus| == |p| + 1 && modulus[0]
    ensures |q| == |p|
    ensures p != [] ==> [false] + q == if p[0] then Sum(p + [false], modulus) else p + [false]
  {
    var product := p + [false];
    if product[0] then Sum(product, modulus)[1..] else product[1..]
  }

  lemma BitsAt(s: Octets, j: nat)
    requires j < 8 * |s|
    ensures Bits(s)[j] == Bit(s[j / 8], j % 8)
  {
  }

  lemma OctetFromBits(u: bv8, v: bv8)
    requires forall k :: 0 <= k < 8 ==> Bit(u, k) == Bit(v, k)
    ensures u == v
  {
    assert Bit(u, 0) == Bit(v, 0) && Bit(u, 1) == Bit(v, 1) && Bit(u, 2) == Bit(v, 2) && Bit(u, 3) == Bit(v, 3);
    assert Bit(u, 4) == Bit(v, 4) && Bit(u, 5) == Bit(v, 5) && Bit(u, 6) == Bit(v, 6) && Bit(u, 7) == Bit(v, 7);
  }

  /** Subkeys are determined by the bits they are specified by. */
  lemma BitsInjective(s: Octets, t: Octets)
    requires Bits(s) == Bits(t)
    ensures s == t
  {
    assert |s| == |t|;
    forall i | 0 <= i < |s|
      ensures s[i] == t[i]
    {
      forall k | 0 <= k < 8
        ensures Bit(s[i], k) == Bit(t[i], k)
      {
        BitsAt(s, 8 * i + k);
        BitsAt(t, 8 * i + k);
      }
      OctetFromBits(s[i], t[i]);
    }
  }

  // ---- Shifting ------------------------------------------------------------------------

  /** One octet of a left shift: its own seven low bits and the top bit behind it. */
  function ShiftedOctet(v: bv8, next: bv8): bv8
  {
    if next & 0x80 != 0 then (v << 1) + 1 else v << 1
  }

  lemma ShiftedBits(v: bv8, next: bv8, k: nat)
    requires k < 8
    ensures Bit(ShiftedOctet(v, next), k) == if k < 7 then Bit(v, k + 1) else Bit(next, 0)
  {
    if k == 0 {} else if k == 1 {} else if k == 2 {} else if k == 3 {} else if k == 4 {}
    else if k == 5 {} else if k == 6 {} else {}
  }

  method ShiftLeft(input: Octets, output: array<bv8>)
    requires |input| == output.Length > 0
    modifies output
    ensures Bits(output[..]) == Bits(input)[1..] + [false]
  {
    var last := output.Length - 1;
    for i := 0 to last
      invariant forall k :: 0 <= k < i ==> output[k] == ShiftedOctet(input[k], input[k + 1])
    {
      output[i] := input[i] << 1;
      if input[i + 1] & 0x80 != 0 { output[i] := output[i] + 1; }
    }
    output[last] := input[last] << 1;
    ShiftIsBitShift(input, output[..]);
  }

  function Next(s: Octets, i: nat): bv8
  {
    if i + 1 < |s| then s[i + 1] else 0
  }

  predicate IsShift(input: Octets, output: Octets)
  {
    |input| == |output| && forall k :: 0 <= k < |input| ==> output[k] == ShiftedOctet(input[k], Next(input, k))
  }

  lemma ShiftBitAt(input: Octets, output: Octets, j: nat)
    requires IsShift(input, output) && j < 8 * |input|
    ensures Bits(output)[j] == if j + 1 < 8 * |input| then Bits(input)[j + 1] else false
  {
    hide ShiftedOctet, Bits;
    var i, k := j / 8, j % 8;
    var next := Next(input, i);
    BitsAt(output, j);
    assert output[i] == ShiftedOctet(input[i], next);
    ShiftedBits(input[i], next, k);
    if j + 1 < 8 * |input| {
      BitsAt(input, j + 1);
      if k < 7 {
        assert (j + 1) / 8 == i && (j + 1) % 8 == k + 1;
      } else {
        assert (j + 1) / 8 == i + 1 && (j + 1) % 8 == 0;
      }
    } else {
      assert k == 7 && next == 0;
      assert !Bit(0, 0);
    }
  }

  lemma ShiftIsBitShift(input: Octets, output: Octets)
    requires input != [] && IsShift(input, output)
    ensures Bits(output) == Bits(input)[1..] + [false]
  {
    hide Bits, ShiftedOctet;
    forall j | 0 <= j < 8 * |output|
      ensures Bits(output)[j] == (Bits(input)[1..] + [false])[j]
    {
      ShiftBitAt(input, output, j);
    }
  }

  /** `k` is `l` doubled. */
  predicate IsDouble(c: Cipher, l: Octets, k: Octets)
  {
    c.size > 0 && |l| == |k| == c.size && Bits(k) == TimesX(Bits(l), Modulus(c.size, c.feedback))
  }

  /** Adding octet strings adds their polynomials. */
  lemma XorIsSum(s: Octets, m: Octets)
    requires |s| == |m|
    ensures Bits(Xor(s, m)) == Sum(Bits(s), Bits(m))
  {
    hide Bits, Bit;
    forall j | 0 <= j < 8 * |s|
      ensures Bits(Xor(s, m))[j] == Sum(Bits(s), Bits(m))[j]
    {
      XorBitAt(s, m, j);
    }
  }

  lemma XorBitAt(s: Octets, m: Octets, j: nat)
    requires |s| == |m| && j < 8 * |s|
    ensures Bits(Xor(s, m))[j] == (Bits(s)[j] != Bits(m)[j])
  {
    hide Bits, Bit, Xor;
    BitsAt(Xor(s, m), j);
    BitsAt(s, j);
    BitsAt(m, j);
    XorOctetBits(s, m, j / 8, j % 8);
  }

  lemma XorOctetBits(s: Octets, m: Octets, i: nat, k: nat)
    requires i < |s| == |m| && k < 8
    ensures Bit(Xor(s, m)[i], k) == (Bit(s[i], k) != Bit(m[i], k))
  {
    XorBits(s[i], m[i], k);
  }

  lemma FeedbackIsXor(s: Octets, feedback: bv8)
    requires s != []
    ensures s[|s| - 1 := s[|s| - 1] ^ feedback] == Xor(s, Blank(|s| - 1) + [feedback])
  {
  }

  lemma XorBits(u: bv8, v: bv8, k: nat)
    requires k < 8
    ensures Bit(u ^ v, k) == (Bit(u, k) != Bit(v, k))
  {
    var m := Mask(k);
    MaskedXor(u, v, m);
    OneBit(u, k);
    OneBit(v, k);
    assert m ^ m == 0 && m ^ 0 == m && 0 ^ m == m && m != 0;
  }

  lemma MaskedXor(u: bv8, v: bv8, m: bv8)
    ensures (u ^ v) & m == (u & m) ^ (v & m)
  {
  }

  lemma OneBit(u: bv8, k: nat)
    requires k < 8
    ensures u & Mask(k) == 0 || u & Mask(k) == Mask(k)
  {
  }

  lemma FeedbackIsSum(s: Octets, feedback: bv8, last: bv8)
    requires s != [] && last == s[|s| - 1] ^ feedback
    ensures Bits(s[|s| - 1 := last]) == Sum(Bits(s), Bits(Blank(|s| - 1) + [feedback]))
  {
    hide Bits, Sum, Blank, Xor;
    FeedbackIsXor(s, feedback);
    XorIsSum(s, Blank(|s| - 1) + [feedback]);
  }

  method AddFeedback(k: array<bv8>, feedback: bv8)
    requires k.Length > 0
    modifies k
    ensures Bits(k[..]) == Sum(old(Bits(k[..])), Bits(Blank(k.Length - 1) + [feedback]))
  {
    hide Bits, Sum, Blank, Xor;
    var last := k.Length - 1;
    ghost var shifted := k[..];
    var v := k[last] ^ feedback;
    FeedbackIsSum(shifted, feedback, v);
    k[last] := v;
    assert k[..] == shifted[last := v];
  }

  method Double(c: Cipher, l: Octets, k: array<bv8>)
    requires c.size > 0 && |l| == k.Length == c.size
    modifies k
    ensures IsDouble(c, l, k[..])
  {
    hide Bits, Sum, Modulus, TimesX, IsDouble, Blank;
    ShiftLeft(l, k);
    ghost var shifted := k[..];
    if l[0] & 0x80 != 0 { AddFeedback(k, c.feedback); }
    DoubleIsTimesX(c, l, shifted, k[..]);
  }

  lemma DoubleIsTimesX(c: Cipher, l: Octets, shifted: Octets, k: Octets)
    requires c.size > 0 && |l| == |shifted| == |k| == c.size
    requires Bits(shifted) == Bits(l)[1..] + [false]
    requires Bits(k) == if l[0] & 0x80 != 0 then Sum(Bits(shifted), Bits(Blank(c.size - 1) + [c.feedback])) else Bits(shifted)
    ensures IsDouble(c, l, k)
  {
    hide Bits;
    var modulus := Modulus(c.size, c.feedback);
    var product := Bits(l) + [false];
    BitsAt(l, 0);
    assert product[1..] == Bits(shifted);
    assert modulus[1..] == Bits(Blank(c.size - 1) + [c.feedback]);
    assert Sum(product, modulus)[1..] == Sum(product[1..], modulus[1..]);
  }

  /** A context holds the two subkeys of its cipher. */
  ghost predicate Keyed(c: Context)
  {
    && IsContext(c) && c.cipher.crypt(Blank(c.cipher.size)).Some?
    && IsDouble(c.cipher, c.cipher.crypt(Blank(c.cipher.size)).value, c.k1)
    && IsDouble(c.cipher, c.k1, c.k2)
  }

  lemma SubkeysUnique(c: Context, d: Context)
    requires Keyed(c) && Keyed(d) && c.cipher == d.cipher
    ensures c == d
  {
    BitsInjective(c.k1, d.k1);
    BitsInjective(c.k2, d.k2);
  }

  /** Fails only when the cipher does. */
  method Init(cipher: Cipher) returns (c: Option<Context>)
    requires IsCipher(cipher)
    ensures c.Some? == cipher.crypt(Blank(cipher.size)).Some?
    ensures c.Some? ==> c.value.cipher == cipher && Keyed(c.value)
  {
    var n := cipher.size;
    var l := cipher.crypt(Blank(n));
    if l.None? { return None; }
    var k1, k2 := new bv8[n], new bv8[n];
    Double(cipher, l.value, k1);
    Double(cipher, k1[..], k2);
    return Some(Context(cipher, k1[..], k2[..]));
  }
}
