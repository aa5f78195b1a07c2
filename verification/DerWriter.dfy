/** The encoder's writer: it appends elements to a buffer, or only counts them, and
    writes a constructed element by leaving room for the shortest header, writing the
    body, and moving the body up when the length needs more room. */
module DerWriter {
  import opened Bytes
  import opened DerTlv

  /** An element to write: a primitive one with its body, or a constructed one. */
  datatype Node = Prim(tag: byte, body: octets) | Cons(tag: byte, kids: seq<Node>)

  function HeaderSize(n: nat): nat
  {
    if n < 128 then 2 else if n < 256 then 3 else 4
  }

  function SizeOf(n: Node): nat
    decreases n, 1
  {
    match n
    case Prim(_, body) => HeaderSize(|body|) + |body|
    case Cons(_, kids) => HeaderSize(SizeOfAll(kids)) + SizeOfAll(kids)
  }

  function SizeOfAll(ns: seq<Node>): nat
    decreases ns, 0
  {
    if ns == [] then 0 else SizeOf(ns[0]) + SizeOfAll(ns[1..])
  }

  /** Every body, at every depth, has a length the format can state. */
  predicate Encodable(n: Node)
    decreases n, 1
  {
    match n
    case Prim(_, body) => |body| <= 0xFFFF
    case Cons(_, kids) => AllEncodable(kids) && SizeOfAll(kids) <= 0xFFFF
  }

  predicate AllEncodable(ns: seq<Node>)
    decreases ns, 0
  {
    ns == [] || (Encodable(ns[0]) && AllEncodable(ns[1..]))
  }

  /** Tag, shortest length, body, at every depth. */
  function NodeOctets(n: Node): (r: octets)
    requires Encodable(n)
    ensures |r| == SizeOf(n)
    decreases n, 1
  {
    match n
    case Prim(tag, body) => Tlv(tag, body)
    case Cons(tag, kids) => Tlv(tag, AllOctets(kids))
  }

  function AllOctets(ns: seq<Node>): (r: octets)
    requires AllEncodable(ns)
    ensures |r| == SizeOfAll(ns)
    decreases ns, 0
  {
    if ns == [] then [] else NodeOctets(ns[0]) + AllOctets(ns[1..])
  }

  class Writer {
    const buf: array<byte>
    /** Without a buffer the writer only counts. */
    const counting: bool
    const sizeMax: nat
    var len: nat
    var overflow: bool

    constructor (buf: array<byte>, counting: bool, sizeMax: nat)
      requires buf.Length <= sizeMax
      ensures this.buf == buf && this.counting == counting && this.sizeMax == sizeMax
      ensures Valid() && len == 0 && !overflow
    {
      this.buf, this.counting, this.sizeMax := buf, counting, sizeMax;
      len, overflow := 0, false;
    }

    ghost predicate Valid()
      reads this
    {
      len <= Limit() <= sizeMax
    }

    ghost function Limit(): nat
    {
      if counting then sizeMax else buf.Length
    }

    /** Since the old state, exactly `data` has been appended, or the writer has
        overflowed: it does so exactly when it had before, when `fine` does not hold,
        or when the data does not fit. */
    twostate predicate Appended(fine: bool, data: octets)
      reads this, buf
    {
      && Valid() && old(len) <= len
      && overflow == (old(overflow) || !fine || old(len) + |data| > Limit())
      && (!overflow ==> len == old(len) + |data| && (!counting ==> buf[..len] == old(buf[..len]) + data))
    }

    method Raw(bytes: octets)
      requires Valid()
      modifies this, buf
      ensures Appended(true, bytes)
    {
      var n := |bytes|;
      if !counting {
        if len > buf.Length || n > buf.Length - len {
          overflow := true;
          return;
        }
        forall k | 0 <= k < n {
          buf[len + k] := bytes[k];
        }
      } else if n > sizeMax - len {
        overflow := true;
        return;
      }
      len := len + n;
      assert !counting ==> buf[..len] == old(buf[..len]) + bytes;
    }

    method Length(n: nat)
      requires Valid()
      modifies this, buf
      ensures Appended(n <= 0xFFFF, if n <= 0xFFFF then LengthOctets(n) else [])
    {
      if n < 128 {
        Raw([n]);
      } else if n < 256 {
        Raw([0x81]);
        Raw([n]);
      } else if n <= 0xFFFF {
        Raw([0x82]);
        Raw([n / 256]);
        Raw([n % 256]);
      } else {
        overflow := true;
      }
    }

    method Primitive(tag: byte, body: octets)
      requires Valid()
      modifies this, buf
      ensures Appended(|body| <= 0xFFFF, if |body| <= 0xFFFF then Tlv(tag, body) else [])
    {
      hide LengthOctets;
      Raw([tag]);
      Length(|body|);
      Raw(body);
      if !counting && |body| <= 0xFFFF {
        ghost var before := old(buf[..len]);
        Associative(before, [tag], LengthOctets(|body|));
        Associative(before, [tag] + LengthOctets(|body|), body);
      }
    }

    /** Writes one element. */
    method WriteNode(n: Node)
      requires Valid()
      modifies this, buf
      ensures Appended(Encodable(n), if Encodable(n) then NodeOctets(n) else [])
      decreases n, 1
    {
      match n
      case Prim(tag, body) => Primitive(tag, body);
      case Cons(tag, kids) => Constructed(tag, kids);
    }

    /** Writes elements one after the other. */
    method WriteNodes(ns: seq<Node>)
      requires Valid()
      modifies this, buf
      ensures Appended(AllEncodable(ns), if AllEncodable(ns) then AllOctets(ns) else [])
      decreases ns, 0
    {
      hide Encodable;
      hide NodeOctets;
      hide SizeOf;
      if ns != [] {
        WriteNode(ns[0]);
        ghost var first := buf[..if counting then 0 else len];
        WriteNodes(ns[1..]);
        if !overflow && !counting {
          assert first == old(buf[..len]) + NodeOctets(ns[0]);
          assert buf[..len] == first + AllOctets(ns[1..]);
          Associative(old(buf[..len]), NodeOctets(ns[0]), AllOctets(ns[1..]));
        }
      }
    }

    /** Moves the `n` octets from `at` up by `gap` places. */
    method MoveBody(at: nat, n: nat, gap: nat)
      requires at + n + gap <= buf.Length
      modifies buf
      ensures buf[..at] == old(buf[..at])
      ensures buf[at + gap..at + gap + n] == old(buf[at..at + n])
    {
      forall k | 0 <= k < n {
        buf[at + gap + k] := buf[at + k];
      }
    }

    /** Fills in a length whose octets start at `at`. */
    method PutLength(at: nat, n: nat)
      requires n <= 0xFFFF && at + HeaderSize(n) - 1 <= buf.Length
      modifies buf
      ensures buf[at..at + HeaderSize(n) - 1] == LengthOctets(n)
      ensures forall k :: 0 <= k < buf.Length && !(at <= k < at + HeaderSize(n) - 1) ==> buf[k] == old(buf[k])
    {
      if n < 128 {
        buf[at] := n;
      } else if n < 256 {
        buf[at] := 0x81;
        buf[at + 1] := n;
      } else {
        buf[at] := 0x82;
        buf[at + 1] := n / 256;
        buf[at + 2] := n % 256;
      }
    }

    /** Makes room for a long-form length and fills the length in. */
    method Patch(start: nat, bodyLen: nat, extra: nat)
      requires bodyLen <= 0xFFFF && extra + 2 == HeaderSize(bodyLen)
      requires start + 2 + bodyLen + extra <= buf.Length
      modifies buf
      ensures buf[..start + 2 + extra + bodyLen] == WithLength(old(buf[..start + 2 + bodyLen]), start)
    {
      hide LengthOctets;
      ghost var b0 := buf[..];
      assert b0[..start + 2 + bodyLen] == buf[..start + 2 + bodyLen];
      if extra > 0 { MoveBody(start + 2, bodyLen, extra); }
      ghost var b1 := buf[..];
      assert b1[..start + 2] == b0[..start + 2];
      assert b1[start + 2 + extra..start + 2 + extra + bodyLen] == b0[start + 2..start + 2 + bodyLen];
      PutLength(start + 1, bodyLen);
      Patched(b0, b1, buf[..], start, bodyLen, extra, LengthOctets(bodyLen));
      assert buf[..][..start + 2 + extra + bodyLen] == buf[..start + 2 + extra + bodyLen];
      assert b0[..start + 1] == b0[..start + 2 + bodyLen][..start + 1];
      assert b0[start + 2..start + 2 + bodyLen] == b0[..start + 2 + bodyLen][start + 2..];
    }

    /** Gives the element opened at `start`, whose body has just been written behind a
        two-octet placeholder header, its proper header. */
    method Close(start: nat, bodyStart: nat, ghost head: octets, ghost tag: byte, ghost body: octets)
      requires Valid() && !overflow && bodyStart == start + 2 && len == bodyStart + |body|
      requires !counting ==> |head| == start && buf[..len] == head + [tag, 0] + body
      modifies this, buf
      ensures Valid() && old(len) <= len
      ensures overflow == (|body| > 0xFFFF || start + HeaderSize(|body|) + |body| > Limit())
      ensures !overflow ==> len == start + HeaderSize(|body|) + |body|
      ensures !overflow && !counting ==> buf[..len] == head + Tlv(tag, body)
    {
      hide LengthOctets, WithLength, Tlv;
      var bodyLen := len - bodyStart;
      var extra := 0;
      if bodyLen >= 256 { extra := 2; } else if bodyLen >= 128 { extra := 1; }
      if bodyLen > 0xFFFF || extra > sizeMax - len || (!counting && (len > buf.Length || extra > buf.Length - len)) {
        overflow := true;
        return;
      }
      if !counting {
        OpenElement(buf[..len], head, tag, body);
        Patch(start, bodyLen, extra);
      }
      len := len + extra;
    }

    /** Writes a constructed element in place. */
    method Constructed(tag: byte, kids: seq<Node>)
      requires Valid()
      modifies this, buf
      ensures var n := Cons(tag, kids); Appended(Encodable(n), if Encodable(n) then NodeOctets(n) else [])
      decreases kids, 1
    {
      ConsParts(tag, kids);
      hide Encodable;
      hide NodeOctets;
      hide AllEncodable;
      hide AllOctets;
      hide SizeOf;
      hide SizeOfAll;
      if overflow { return; }
      var start := len;
      Raw([tag]);
      Raw([0]);
      if overflow { return; }
      var bodyStart := len;
      WriteNodes(kids);
      if overflow { return; }
      ghost var head, body := old(buf[..if counting then 0 else len]), AllOctets(kids);
      assert !counting ==> buf[..len] == head + [tag, 0] + body;
      Close(start, bodyStart, head, tag, body);
      assert !overflow && !counting ==> buf[..len] == head + NodeOctets(Cons(tag, kids));
    }
  }

  lemma Patched(b0: octets, b1: octets, b2: octets, start: nat, n: nat, extra: nat, length: octets)
    requires |b0| == |b1| == |b2| && start + 2 + extra + n <= |b0| && |length| == extra + 1
    requires b1[..start + 2] == b0[..start + 2]
    requires b1[start + 2 + extra..start + 2 + extra + n] == b0[start + 2..start + 2 + n]
    requires b2[start + 1..start + 2 + extra] == length
    requires forall k :: 0 <= k < |b2| && !(start + 1 <= k < start + 2 + extra) ==> b2[k] == b1[k]
    ensures b2[..start + 2 + extra + n] == b0[..start + 1] + length + b0[start + 2..start + 2 + n]
  {
    assert b2[..start + 1] == b1[..start + 2][..start + 1] == b0[..start + 1];
    assert b2[start + 2 + extra..start + 2 + extra + n] == b1[start + 2 + extra..start + 2 + extra + n];
    assert b2[..start + 2 + extra + n]
        == b2[..start + 1] + b2[start + 1..start + 2 + extra] + b2[start + 2 + extra..start + 2 + extra + n];
  }

  /** How a placeholder header and its body lie in the buffer. */
  lemma OpenElement(now: octets, head: octets, tag: byte, body: octets)
    requires now == head + [tag, 0] + body
    ensures |body| <= 0xFFFF ==> WithLength(now, |head|) == head + Tlv(tag, body)
  {
    hide LengthOctets;
    assert now[..|head| + 1] == head + [tag] && now[|head| + 2..] == body;
  }

  /** An element opened at `start`, with its placeholder length replaced. */
  function WithLength(now: octets, start: nat): octets
    requires start + 2 <= |now| <= start + 2 + 0xFFFF
  {
    now[..start + 1] + LengthOctets(|now| - start - 2) + now[start + 2..]
  }

  lemma ConsParts(tag: byte, kids: seq<Node>)
    ensures Encodable(Cons(tag, kids)) <==> AllEncodable(kids) && SizeOfAll(kids) <= 0xFFFF
    ensures Encodable(Cons(tag, kids)) ==> NodeOctets(Cons(tag, kids)) == [tag] + LengthOctets(SizeOfAll(kids)) + AllOctets(kids)
    ensures SizeOf(Cons(tag, kids)) == HeaderSize(SizeOfAll(kids)) + SizeOfAll(kids)
  {
  }

  // ---- Whole encodings ------------------------------------------------------------------

  datatype Status = Ok | Malformed | Unsupported | Capacity

  const TAG_CREDENTIAL: byte := 0x60

  /** The size of an encoding, by a counting pass over its body. */
  method EncodedSize(kids: seq<Node>, sizeMax: nat) returns (status: Status, size: nat)
    requires sizeMax >= 0xFFFF_FFFF
    ensures var root := Cons(TAG_CREDENTIAL, kids);
      && (status == Ok <==> Encodable(root) && SizeOf(root) <= DER_MAX_SIZE)
      && (status == Ok ==> size == SizeOf(root))
  {
    size := 0;
    var none := new byte[0];
    var probe := new Writer(none, true, sizeMax);
    probe.WriteNodes(kids);
    ConsParts(TAG_CREDENTIAL, kids);
    hide AllOctets;
    hide AllEncodable;
    hide Encodable;
    if probe.overflow { return Malformed, 0; }
    var outer := new Writer(none, true, sizeMax);
    outer.Raw([TAG_CREDENTIAL]);
    outer.Length(probe.len);
    if outer.overflow { return Capacity, 0; }
    var total := outer.len + probe.len;
    if total > DER_MAX_SIZE { return Malformed, 0; }
    return Ok, total;
  }

  /** Encodes into `out`. Once the computed size fits, writing cannot overflow and
      produces exactly that many octets. */
  method Encode(kids: seq<Node>, out: array<byte>, sizeMax: nat) returns (status: Status, len: nat)
    requires sizeMax >= 0xFFFF_FFFF && out.Length <= sizeMax
    modifies out
    ensures var root := Cons(TAG_CREDENTIAL, kids);
      && (status == Ok <==> Encodable(root) && SizeOf(root) <= DER_MAX_SIZE && SizeOf(root) <= out.Length)
      && (status == Ok ==> len <= out.Length && out[..len] == NodeOctets(root))
  {
    len := 0;
    var needed;
    status, needed := EncodedSize(kids, sizeMax);
    if status != Ok { return; }
    if needed > out.Length { return Capacity, 0; }
    var w := new Writer(out, false, sizeMax);
    w.Constructed(TAG_CREDENTIAL, kids);
    if w.overflow { status := Capacity; return; }
    assert out[..0] + NodeOctets(Cons(TAG_CREDENTIAL, kids)) == NodeOctets(Cons(TAG_CREDENTIAL, kids));
    return Ok, w.len;
  }

  /** The length of the encoding at the front of `data`; zero when there is none. */
  method EncodingLength(data: octets) returns (length: nat)
    ensures length > 0 <==> (ParseTlv(data).Some? && ParseTlv(data).value.tag == TAG_CREDENTIAL
                             && |data| - |ParseTlv(data).value.rest| <= DER_MAX_SIZE)
    ensures length > 0 ==> length == |data| - |ParseTlv(data).value.rest|
  {
    var ok, tag, bodyAt, bodyLen := ReadTlv(data, 0);
    assert data[0..] == data;
    if !ok || tag != TAG_CREDENTIAL { return 0; }
    length := bodyAt + bodyLen;
    if length > DER_MAX_SIZE { return 0; }
  }

  /** An encoding followed by any padding has its own size as its length. */
  lemma LengthOfPadded(kids: seq<Node>, padding: octets)
    requires Encodable(Cons(TAG_CREDENTIAL, kids))
    ensures var e := NodeOctets(Cons(TAG_CREDENTIAL, kids));
            var r := ParseTlv(e + padding);
            && r.Some? && r.value.tag == TAG_CREDENTIAL && r.value.body == AllOctets(kids)
            && |e + padding| - |r.value.rest| == SizeOf(Cons(TAG_CREDENTIAL, kids))
  {
    WrittenIsRead(TAG_CREDENTIAL, AllOctets(kids), padding);
  }
}
