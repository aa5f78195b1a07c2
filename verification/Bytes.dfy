/** Octets, octet strings and the few memory primitives the core is written with. */
module Bytes {

  type byte = x: int | 0 <= x < 256

  datatype Option<+T> = None | Some(value: T)

  function Zeros(n: nat): (z: seq<byte>)
    ensures |z| == n
    ensures forall k :: 0 <= k < n ==> z[k] == 0
  {
    seq(n, i => 0)
  }

  /** `data` written over `s` from `at`. */
  function Overwritten(s: seq<byte>, at: nat, data: seq<byte>): (r: seq<byte>)
    requires at + |data| <= |s|
    ensures |r| == |s|
  {
    s[..at] + data + s[at + |data|..]
  }

  /** The place `r` behind `i`, round the end of `n`. */
  function Turned(i: nat, r: nat, n: nat): (k: nat)
    requires n > 0
    ensures k < n
  {
    (i + r) % n
  }

  /** `s` rotated left by `r` places. */
  function RotateLeft<T>(s: seq<T>, r: nat): (t: seq<T>)
    ensures |t| == |s|
  {
    seq(|s|, i requires 0 <= i < |s| => s[Turned(i, r, |s|)])
  }

  lemma RotateAt<T>(s: seq<T>, r: nat, i: nat)
    requires i < |s|
    ensures RotateLeft(s, r)[i] == s[Turned(i, r, |s|)]
  {
  }

  lemma TurnedByOne(i: nat, n: nat)
    requires i < n
    ensures Turned(i, 1, n) == if i + 1 < n then i + 1 else 0
  {
  }

  lemma RotateByOne<T>(s: seq<T>)
    requires s != []
    ensures RotateLeft(s, 1) == s[1..] + [s[0]]
  {
    hide Turned, RotateLeft;
    forall i | 0 <= i < |s|
      ensures RotateLeft(s, 1)[i] == (s[1..] + [s[0]])[i]
    {
      RotateAt(s, 1, i);
      TurnedByOne(i, |s|);
    }
  }

  /** The elements of a list of strings, in order. */
  function Concat<T>(parts: seq<seq<T>>): seq<T>
  {
    if parts == [] then [] else parts[0] + Concat(parts[1..])
  }

  lemma Associative<T>(a: seq<T>, b: seq<T>, c: seq<T>)
    ensures a + (b + c) == (a + b) + c
  {
  }

  lemma {:induction false} ConcatAppend<T>(a: seq<seq<T>>, b: seq<seq<T>>)
    ensures Concat(a + b) == Concat(a) + Concat(b)
  {
    if a == [] {
      assert a + b == b;
    } else {
      ConcatAppend(a[1..], b);
      assert (a + b)[0] == a[0] && (a + b)[1..] == a[1..] + b;
      Associative(a[0], Concat(a[1..]), Concat(b));
    }
  }
}
