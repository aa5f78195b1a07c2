/** The tag-length-value layer of the credential encoding: definite lengths in their
    shortest form, low tag numbers only (ITU-T X.690 sections 8.1.3 and 10.1). */
module DerTlv {
  import opened Bytes

  const DER_MAX_SIZE: nat := 65535

  type octets = seq<byte>

  function LengthOctets(n: nat): (r: octets)
    requires n <= 0xFFFF
  {
    if n < 128 then [n] else if n < 256 then [0x81, n] else [0x82, n / 256, n % 256]
  }

  function Tlv(tag: byte, body: octets): octets
    requires |body| <= 0xFFFF
  {
    [tag] + LengthOctets(|body|) + body
  }

  /** One element read off the front of an octet string. */
  datatype Element = Element(tag: byte, header: nat, body: octets, rest: octets)

  predicate LowTag(tag: byte)
  {
    tag % 32 != 31
  }

  /** The header length and body length announced at the front, if they are canonical. */
  function Header(s: octets): Option<(nat, nat)>
  {
    if |s| < 2 || !LowTag(s[0]) then None
    else if s[1] < 128 then Some((2, s[1]))
    else
      var count := s[1] - 128;
      if count == 0 || count > 2 || |s| < 2 + count then None
      else
        var n: nat := if count == 1 then s[2] as int else s[2] as int * 256 + s[3];
        if n < 128 || (count == 2 && n < 256) then None else Some((2 + count, n))
  }

  function ParseTlv(s: octets): (r: Option<Element>)
    ensures r.Some? ==> |r.value.rest| < |s|
  {
    match Header(s)
    case None => None
    case Some((header, n)) =>
      if |s| < header + n then None
      else Some(Element(s[0], header, s[header..header + n], s[header + n..]))
  }

  /** What the writer produces is read back, whatever follows it. */
  lemma WrittenIsRead(tag: byte, body: octets, rest: octets)
    requires LowTag(tag) && |body| <= 0xFFFF
    ensures var r := ParseTlv(Tlv(tag, body) + rest);
            r.Some? && r.value.tag == tag && r.value.body == body && r.value.rest == rest
  {
    var s, len := Tlv(tag, body) + rest, LengthOctets(|body|);
    assert s == [tag] + len + body + rest;
    assert s[0] == tag && s[1..1 + |len|] == len;
    assert Header(s) == Some((1 + |len|, |body|));
    assert s[1 + |len|..1 + |len| + |body|] == body;
    assert s[1 + |len| + |body|..] == rest;
  }

  /** What the reader accepts is what the writer would have produced. */
  lemma ReadIsWritten(s: octets)
    requires ParseTlv(s).Some?
    ensures var e := ParseTlv(s).value;
            && LowTag(e.tag) && |e.body| <= 0xFFFF && s == Tlv(e.tag, e.body) + e.rest
            && e.header + |e.body| == |Tlv(e.tag, e.body)|
  {
    var e := ParseTlv(s).value;
    assert s == s[..e.header] + e.body + e.rest;
    assert s[..e.header] == [e.tag] + LengthOctets(|e.body|);
  }

  /** Elements are encoded in exactly one way. */
  lemma TlvCanonical(s: octets, tag: byte, body: octets, rest: octets)
    ensures (ParseTlv(s).Some? && ParseTlv(s).value.tag == tag && ParseTlv(s).value.body == body && ParseTlv(s).value.rest == rest)
       <==> (LowTag(tag) && |body| <= 0xFFFF && s == Tlv(tag, body) + rest)
  {
    if ParseTlv(s).Some? { ReadIsWritten(s); }
    if LowTag(tag) && |body| <= 0xFFFF && s == Tlv(tag, body) + rest { WrittenIsRead(tag, body, rest); }
  }

  /** Reads one element from position `at`, as a cursor over the input. */
  method ReadTlv(s: octets, at: nat) returns (ok: bool, tag: byte, bodyAt: nat, bodyLen: nat)
    requires at <= |s|
    ensures ok == ParseTlv(s[at..]).Some?
    ensures ok ==> var e := ParseTlv(s[at..]).value;
      && tag == e.tag && bodyAt == at + e.header && bodyAt + bodyLen <= |s|
      && s[bodyAt..bodyAt + bodyLen] == e.body && s[bodyAt + bodyLen..] == e.rest
  {
    ghost var t := s[at..];
    ok, tag, bodyAt, bodyLen := false, 0, at, 0;
    if |s| - at < 2 { return; }
    tag := s[at];
    if tag % 32 == 31 { return; }
    var header: nat := 2;
    var n: nat := s[at + 1];
    if n >= 128 {
      var count: nat := n - 128;
      if count == 0 || count > 2 { return; }
      if |s| - at < 2 + count { return; }
      n := 0;
      var i := 0;
      while i < count
        invariant 0 <= i <= count <= 2
        invariant n == if i == 0 then 0 else if i == 1 then t[2] as int else t[2] as int * 256 + t[3]
      {
        n := n * 256 + s[at + 2 + i];
        i := i + 1;
      }
      header := 2 + count;
      if n < 128 { return; }
      if count == 2 && n < 256 { return; }
    }
    assert Header(t) == Some((header, n));
    if |s| - at < header + n { return; }
    assert t[header..header + n] == s[at + header..at + header + n];
    ok, bodyAt, bodyLen := true, at + header, n;
  }

  // ---- Elements in a row --------------------------------------------------------------

  /** A SEQUENCE OF: elements with one tag, back to back. */
  function ListOctets(tag: byte, bodies: seq<octets>): octets
    requires forall i :: 0 <= i < |bodies| ==> |bodies[i]| <= 0xFFFF
  {
    if bodies == [] then [] else Tlv(tag, bodies[0]) + ListOctets(tag, bodies[1..])
  }

  function ReadList(tag: byte, s: octets): (r: Option<seq<octets>>)
    decreases |s|
  {
    if s == [] then Some([])
    else match ParseTlv(s)
      case None => None
      case Some(e) =>
        if e.tag != tag then None
        else match ReadList(tag, e.rest)
          case None => None
          case Some(more) => Some([e.body] + more)
  }

  /** A list is read back as written. */
  lemma {:induction false} ListRoundTrip(tag: byte, bodies: seq<octets>)
    requires LowTag(tag) && forall i :: 0 <= i < |bodies| ==> |bodies[i]| <= 0xFFFF
    ensures ReadList(tag, ListOctets(tag, bodies)) == Some(bodies)
  {
    if bodies != [] {
      WrittenIsRead(tag, bodies[0], ListOctets(tag, bodies[1..]));
      ListRoundTrip(tag, bodies[1..]);
      assert [bodies[0]] + bodies[1..] == bodies;
    }
  }

  lemma {:induction false} ListLength(tag: byte, bodies: seq<octets>, i: nat)
    requires i < |bodies| && forall i :: 0 <= i < |bodies| ==> |bodies[i]| <= 0xFFFF
    ensures |bodies[i]| <= |ListOctets(tag, bodies)|
  {
    if i > 0 { ListLength(tag, bodies[1..], i - 1); }
  }
}
