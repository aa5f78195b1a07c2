/** INTEGER bodies: the shortest two's-complement form of a 64-bit value (ITU-T X.690
    section 8.3.2), written by trimming eight octets and read with 64-bit wrap-around. */
module DerInteger {
  import opened Bytes
  import opened Arithmetic
  import opened DerTlv

  const TWO_63: int := 0x8000_0000_0000_0000
  const TWO_64: int := 0x1_0000_0000_0000_0000

  predicate IsInt64(v: int)
  {
    -TWO_63 <= v < TWO_63
  }

  /** The value of a two's-complement octet string. */
  function Signed(b: octets): int
    requires b != []
  {
    if |b| == 1 then (if b[0] < 128 then b[0] as int else b[0] as int - 256)
    else Signed(b[..|b| - 1]) * 256 + b[|b| - 1]
  }

  /** The lowest `n` octets of `v` in two's complement, most significant first. */
  function Extended(v: int, n: nat): (r: octets)
    ensures |r| == n
    decreases n
  {
    if n == 0 then [] else Extended(v / 256, n - 1) + [v % 256]
  }

  /** 128 * 256^(n - 1): one more than the largest value of `n` octets. */
  function Bound(n: nat): (p: int)
    requires n > 0
    ensures p >= 128
  {
    if n == 1 then 128 else 256 * Bound(n - 1)
  }

  predicate InRange(v: int, n: nat)
    requires n > 0
  {
    -Bound(n) <= v < Bound(n)
  }

  predicate Redundant(b: octets)
  {
    |b| >= 2 && ((b[0] == 0x00 && b[1] < 128) || (b[0] == 0xFF && b[1] >= 128))
  }

  lemma {:induction false} SignedInRange(b: octets)
    requires b != []
    ensures InRange(Signed(b), |b|)
  {
    if |b| > 1 { SignedInRange(b[..|b| - 1]); }
  }

  lemma {:induction false} ExtendedOfSigned(b: octets)
    requires b != []
    ensures Extended(Signed(b), |b|) == b
  {
    var n := |b|;
    if n == 1 {
      assert Extended(Signed(b) / 256, 0) == [];
    } else {
      ExtendedOfSigned(b[..n - 1]);
      DivModUnique(Signed(b), Signed(b[..n - 1]), 256, b[n - 1]);
      assert b == b[..n - 1] + [b[n - 1]];
    }
  }

  lemma {:induction false} SignedOfExtended(v: int, n: nat)
    requires n > 0 && InRange(v, n)
    ensures Signed(Extended(v, n)) == v
    decreases n
  {
    var e := Extended(v, n);
    if n > 1 {
      SignedOfExtended(v / 256, n - 1);
      assert e[..n - 1] == Extended(v / 256, n - 1);
    } else {
      assert e == [v % 256];
    }
  }

  lemma {:induction false} ExtendedSuffix(v: int, n: nat)
    requires n > 0
    ensures Extended(v, n)[1..] == Extended(v, n - 1)
    decreases n
  {
    if n > 1 {
      ExtendedSuffix(v / 256, n - 1);
      assert Extended(v, n)[1..] == Extended(v / 256, n - 1)[1..] + [v % 256];
    }
  }

  /** A leading octet is redundant exactly when leaving it out keeps the value. */
  lemma {:induction false} RedundantKeepsValue(b: octets)
    requires |b| >= 2
    ensures Redundant(b) <==> Signed(b[1..]) == Signed(b)
  {
    var n := |b|;
    if n == 2 {
      assert b[..1] == [b[0]] && b[1..] == [b[1]];
    } else {
      var p := b[..n - 1];
      RedundantKeepsValue(p);
      assert b[1..][..n - 2] == p[1..];
      assert Signed(b[1..]) == Signed(p[1..]) * 256 + b[n - 1];
    }
  }

  lemma BoundGrows(v: int, m: nat, n: nat)
    requires 0 < m <= n && InRange(v, m)
    ensures InRange(v, n)
    decreases n
  {
    if m < n { BoundGrows(v, m, n - 1); }
  }

  lemma BoundOfEight()
    ensures Bound(8) == TWO_63
  {
    assert Bound(2) == 0x8000 && Bound(4) == 0x8000_0000 && Bound(6) == 0x8000_0000_0000;
  }

  /** The canonical body of a value: its shortest two's-complement form. */
  predicate IsIntBody(b: octets, v: int)
  {
    1 <= |b| <= 8 && Signed(b) == v && !Redundant(b)
  }

  /** No value has two canonical bodies. */
  lemma IntBodyUnique(a: octets, b: octets, v: int)
    requires IsIntBody(a, v) && IsIntBody(b, v)
    ensures a == b
  {
    ExtendedOfSigned(a);
    ExtendedOfSigned(b);
    if |a| < |b| { ShorterIsNotCanonical(a, b, v); } else if |b| < |a| { ShorterIsNotCanonical(b, a, v); }
  }

  lemma ShorterIsNotCanonical(a: octets, b: octets, v: int)
    requires 0 < |a| < |b| && Signed(a) == v && Signed(b) == v
    ensures Redundant(b)
  {
    SignedInRange(a);
    BoundGrows(v, |a|, |b| - 1);
    ExtendedOfSigned(b);
    ExtendedSuffix(v, |b|);
    SignedOfExtended(v, |b| - 1);
    RedundantKeepsValue(b);
  }

  // ---- The writer ----------------------------------------------------------------------

  function Pow256(n: nat): (p: int)
    ensures p > 0
  {
    if n == 0 then 1 else 256 * Pow256(n - 1)
  }

  /** Octet `k` from the right, taken by a shift. */
  lemma {:induction false} ShiftedOctet(v: int, n: nat, k: nat)
    requires k < n
    ensures Extended(v, n)[n - 1 - k] == (v / Pow256(k)) % 256
    decreases n
  {
    if k == 0 {
      assert v / Pow256(0) == v;
    } else {
      ShiftedOctet(v / 256, n - 1, k - 1);
      DivTwice(v, Pow256(k - 1));
      assert Extended(v, n)[n - 1 - k] == Extended(v / 256, n - 1)[n - 1 - k];
    }
  }

  lemma DivTwice(v: int, p: int)
    requires p > 0
    ensures (v / 256) / p == v / (256 * p)
  {
    var q, r := (v / 256) / p, (v / 256) % p;
    assert v == (q * p + r) * 256 + v % 256;
    assert v == q * (256 * p) + (r * 256 + v % 256);
    DivModUnique(v, q, 256 * p, r * 256 + v % 256);
  }

  lemma {:induction false} ExtendedModulo(v: int, m: int, n: nat)
    ensures Extended(v + m * Pow256(n), n) == Extended(v, n)
    decreases n
  {
    if n > 0 {
      var w := m * Pow256(n - 1);
      TimesPower(m, n);
      ShiftOut(v, w);
      hide Pow256;
      ExtendedModulo(v / 256, m, n - 1);
    }
  }

  lemma TimesPower(m: int, n: nat)
    requires n > 0
    ensures m * Pow256(n) == (m * Pow256(n - 1)) * 256
  {
  }

  lemma ShiftOut(v: int, w: int)
    ensures (v + w * 256) % 256 == v % 256 && (v + w * 256) / 256 == v / 256 + w
  {
    ModShift(v, w, 256);
  }

  lemma PowerOfEight()
    ensures Pow256(8) == TWO_64
  {
    assert Pow256(2) == 0x1_0000 && Pow256(4) == 0x1_0000_0000 && Pow256(6) == 0x1_0000_0000_0000;
  }

  /** A body without its redundant leading octets. */
  function Trimmed(b: octets): octets
  {
    if Redundant(b) then Trimmed(b[1..]) else b
  }

  lemma {:induction false} TrimmedIsCanonical(b: octets)
    requires 1 <= |b| <= 8
    ensures IsIntBody(Trimmed(b), Signed(b))
  {
    if Redundant(b) {
      RedundantKeepsValue(b);
      TrimmedIsCanonical(b[1..]);
    }
  }

  /** The canonical body of `v`. */
  function IntOctets(v: int): octets
  {
    Trimmed(Extended(v, 8))
  }

  /** The value of a canonical body. */
  function IntValue(b: octets): Option<int>
  {
    if 1 <= |b| <= 8 && !Redundant(b) then Some(Signed(b)) else None
  }

  lemma IntOctetsCanonical(v: int)
    requires IsInt64(v)
    ensures IsIntBody(IntOctets(v), v)
  {
    BoundOfEight();
    SignedOfExtended(v, 8);
    TrimmedIsCanonical(Extended(v, 8));
  }

  /** Every 64-bit value is read back from its body, and only from its body. */
  lemma IntegerCanonical(b: octets, v: int)
    requires IsInt64(v)
    ensures IntValue(b) == Some(v) <==> b == IntOctets(v)
  {
    IntOctetsCanonical(v);
    if IntValue(b) == Some(v) { IntBodyUnique(b, IntOctets(v), v); }
  }

  /** Writes the eight octets of the value and trims the redundant ones. */
  method IntBody(v: int) returns (body: octets)
    requires IsInt64(v)
    ensures body == IntOctets(v) && IsIntBody(body, v)
  {
    var tmp := EightOctets(v);
    BoundOfEight();
    SignedOfExtended(v, 8);
    hide Signed, Extended;
    var first := 0;
    assert tmp[0..] == tmp;
    while first + 1 < |tmp|
      invariant 0 <= first < |tmp| == 8
      invariant Signed(tmp[first..]) == v
    {
      var redundant := (tmp[first] == 0x00 && tmp[first + 1] < 128) || (tmp[first] == 0xFF && tmp[first + 1] >= 128);
      if !redundant { break; }
      RedundantKeepsValue(tmp[first..]);
      assert tmp[first..][1..] == tmp[first + 1..];
      first := first + 1;
    }
    body := tmp[first..];
    IntOctetsCanonical(v);
    IntBodyUnique(body, IntOctets(v), v);
  }

  /** The octets of the value as an unsigned 64-bit number, highest first. */
  method EightOctets(v: int) returns (tmp: octets)
    requires IsInt64(v)
    ensures tmp == Extended(v, 8) && |tmp| == 8
  {
    var u := if v < 0 then v + TWO_64 else v;
    tmp := [];
    PowerOfEight();
    ExtendedModulo(v, 1, 8);
    hide Extended, Pow256;
    var k: nat := 8;
    while k > 0
      invariant k <= 8 && |tmp| == 8 - k
      invariant forall i :: 0 <= i < |tmp| ==> tmp[i] == Extended(u, 8)[i]
    {
      ShiftedOctet(u, 8, k - 1);
      tmp := tmp + [(u / Pow256(k - 1)) % 256];
      k := k - 1;
    }
  }

  // ---- The reader ----------------------------------------------------------------------

  /** Reads a body, accumulating modulo 2^64 from the sign extension. It is accepted
      exactly when it is the canonical body of a value, and that value is returned. */
  method ReadInt(s: octets) returns (ok: bool, v: int)
    ensures ok <==> exists w :: IsIntBody(s, w)
    ensures ok ==> IsIntBody(s, v) && IsInt64(v)
    ensures IntValue(s) == if ok then Some(v) else None
  {
    ok, v := false, 0;
    if |s| == 0 || |s| > 8 { return; }
    if |s| > 1 {
      var redundant := (s[0] == 0x00 && s[1] < 128) || (s[0] == 0xFF && s[1] >= 128);
      if redundant { return; }
    }
    var u := Accumulate(s);
    SignedInRange(s);
    BoundGrows(Signed(s), |s|, 8);
    BoundOfEight();
    v := if u >= TWO_63 then u - TWO_64 else u;
    assert v == Signed(s) by { hide Signed; }
    assert IsIntBody(s, Signed(s));
    ok := true;
  }

  /** Shifts the octets into sixty-four bits, from the sign extension on. */
  method Accumulate(s: octets) returns (u: int)
    requires s != []
    ensures 0 <= u < TWO_64 && u == Signed(s) % TWO_64
  {
    u := if s[0] >= 128 then TWO_64 - 1 else 0;
    FirstShifted(s[0]);
    u := (u * 256) % TWO_64 + s[0];
    assert s[..1] == [s[0]];
    hide Signed;
    var i := 1;
    while i < |s|
      invariant 1 <= i <= |s| && 0 <= u < TWO_64 && u == Signed(s[..i]) % TWO_64
    {
      SignedPush(s[..i], s[i]);
      assert s[..i] + [s[i]] == s[..i + 1];
      ShiftIn(Signed(s[..i]), u, s[i]);
      u := (u * 256) % TWO_64 + s[i];
      i := i + 1;
    }
    assert s[..i] == s;
  }

  lemma FirstShifted(x: byte)
    ensures ((if x >= 128 then TWO_64 - 1 else 0) * 256) % TWO_64 + x == Signed([x]) % TWO_64
  {
    if x >= 128 {
      DivModUnique((TWO_64 - 1) * 256, 255, TWO_64, TWO_64 - 256);
      DivModUnique(x - 256, -1, TWO_64, TWO_64 + x - 256);
    }
  }

  lemma SignedPush(s: octets, x: byte)
    requires s != []
    ensures Signed(s + [x]) == Signed(s) * 256 + x
  {
    assert (s + [x])[..|s|] == s;
  }

  /** Shifting an octet in commutes with reduction modulo 2^64. */
  lemma ShiftIn(w: int, u: int, x: byte)
    requires u == w % TWO_64
    ensures (u * 256) % TWO_64 + x == (w * 256 + x) % TWO_64
  {
    var q := w / TWO_64;
    var r := (u * 256) / TWO_64;
    assert w * 256 + x == (q * 256 + r) * TWO_64 + ((u * 256) % TWO_64 + x);
    assert ((u * 256) % TWO_64) % 256 == 0;
    DivModUnique(w * 256 + x, q * 256 + r, TWO_64, (u * 256) % TWO_64 + x);
  }
}
