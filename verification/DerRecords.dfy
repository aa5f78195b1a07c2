/** Elements of a SEQUENCE in declared order, some of them absent, and lists of elements
    with one tag: how what the encoder writes meets what the decoder reads. */
module DerRecords {
  import opened Bytes
  import opened DerTlv
  import opened DerWriter
  import opened DerFields

  /** One entry per declared component; `None` where the encoder writes nothing. */
  type Slots = seq<Option<Node>>

  function Flatten(slots: Slots): seq<Node>
  {
    if slots == [] then []
    else (if slots[0].Some? then [slots[0].value] else []) + Flatten(slots[1..])
  }

  /** Present components carry the declared tags. */
  predicate Aligned(order: octets, from: nat, slots: Slots)
  {
    && from + |slots| == |order|
    && forall i :: 0 <= i < |slots| && slots[i].Some? ==> slots[i].value.tag == order[from + i]
  }

  predicate SlotsEncodable(slots: Slots)
  {
    forall i :: 0 <= i < |slots| && slots[i].Some? ==> Encodable(slots[i].value)
  }

  function Body(n: Node): (b: octets)
    requires Encodable(n)
    ensures |b| <= 0xFFFF
  {
    match n
    case Prim(_, body) => body
    case Cons(_, kids) => AllOctets(kids)
  }

  /** What a reader finds in each component. */
  function Bodies(slots: Slots): (r: Record)
    requires SlotsEncodable(slots)
    ensures |r| == |slots| && RecordOk(r)
    ensures forall i :: 0 <= i < |slots| ==>
      r[i] == if slots[i].Some? then Some(Body(slots[i].value)) else None
  {
    seq(|slots|, i requires 0 <= i < |slots| =>
      if slots[i].Some? then Some(Body(slots[i].value)) else None)
  }

  lemma EncodableParts(a: seq<Node>, b: seq<Node>)
    ensures AllEncodable(a + b) <==> AllEncodable(a) && AllEncodable(b)
    ensures AllEncodable(a) && AllEncodable(b) ==> AllOctets(a + b) == AllOctets(a) + AllOctets(b)
    decreases |a|
  {
    if a == [] {
      assert a + b == b;
    } else {
      EncodableParts(a[1..], b);
      assert (a + b)[0] == a[0] && (a + b)[1..] == a[1..] + b;
    }
  }

  lemma {:induction false} FlattenEncodable(slots: Slots)
    ensures AllEncodable(Flatten(slots)) <==> SlotsEncodable(slots)
  {
    if slots != [] {
      FlattenEncodable(slots[1..]);
      var head := if slots[0].Some? then [slots[0].value] else [];
      EncodableParts(head, Flatten(slots[1..]));
      assert head != [] ==> head[1..] == [];
      assert SlotsEncodable(slots) ==> SlotsEncodable(slots[1..]) by {
        assert forall i :: 0 <= i < |slots| - 1 ==> slots[1..][i] == slots[i + 1];
      }
      assert AllEncodable(head) <==> (slots[0].Some? ==> Encodable(slots[0].value));
      if SlotsEncodable(slots[1..]) && (slots[0].Some? ==> Encodable(slots[0].value)) {
        forall i | 0 <= i < |slots| && slots[i].Some?
          ensures Encodable(slots[i].value)
        {
          if i > 0 { assert slots[1..][i - 1] == slots[i]; }
        }
      }
    }
  }

  lemma NodeIsTlv(n: Node)
    requires Encodable(n)
    ensures NodeOctets(n) == Tlv(n.tag, Body(n))
  {
  }

  lemma {:induction false} FlattenOctets(order: octets, from: nat, slots: Slots)
    requires Aligned(order, from, slots) && SlotsEncodable(slots)
    ensures AllEncodable(Flatten(slots))
    ensures AllOctets(Flatten(slots)) == FieldOctets(order, from, Bodies(slots))
    decreases |slots|
  {
    FlattenEncodable(slots);
    if slots != [] {
      var rest := slots[1..];
      assert Aligned(order, from + 1, rest) && SlotsEncodable(rest) by {
        assert forall i :: 0 <= i < |rest| ==> rest[i] == slots[i + 1];
      }
      FlattenOctets(order, from + 1, rest);
      assert Bodies(slots)[1..] == Bodies(rest);
      WriteStep(order, from, Bodies(slots));
      var head := if slots[0].Some? then [slots[0].value] else [];
      FlattenEncodable(rest);
      EncodableParts(head, Flatten(rest));
      if slots[0].Some? {
        NodeIsTlv(slots[0].value);
        assert head[1..] == [];
        assert AllOctets(head) == NodeOctets(slots[0].value);
      }
    }
  }

  /** A record is read back component by component. */
  lemma RecordReads(order: octets, slots: Slots)
    requires OrderOk(order) && Aligned(order, 0, slots) && AllEncodable(Flatten(slots))
    ensures SlotsEncodable(slots)
    ensures ReadFields(order, 0, AllOctets(Flatten(slots))) == Some(Bodies(slots))
  {
    FlattenEncodable(slots);
    FlattenOctets(order, 0, slots);
    WrittenRecordIsRead(order, 0, Bodies(slots));
  }

  // ---- Lists ----------------------------------------------------------------------------

  function Listed(tag: byte, items: seq<seq<Node>>): (ns: seq<Node>)
    ensures |ns| == |items| && forall i :: 0 <= i < |items| ==> ns[i] == Cons(tag, items[i])
  {
    seq(|items|, i requires 0 <= i < |items| => Cons(tag, items[i]))
  }

  function ItemBodies(items: seq<seq<Node>>): (b: seq<octets>)
    requires forall i :: 0 <= i < |items| ==> AllEncodable(items[i])
    ensures |b| == |items| && forall i :: 0 <= i < |items| ==> b[i] == AllOctets(items[i])
  {
    seq(|items|, i requires 0 <= i < |items| => AllOctets(items[i]))
  }

  lemma {:induction false} ListedOctets(tag: byte, items: seq<seq<Node>>)
    requires AllEncodable(Listed(tag, items))
    ensures forall i :: 0 <= i < |items| ==> AllEncodable(items[i]) && |AllOctets(items[i])| <= 0xFFFF
    ensures AllOctets(Listed(tag, items)) == ListOctets(tag, ItemBodies(items))
    decreases |items|
  {
    if items != [] {
      var ns := Listed(tag, items);
      assert ns[1..] == Listed(tag, items[1..]);
      ListedOctets(tag, items[1..]);
      ConsParts(tag, items[0]);
      assert Encodable(ns[0]);
      forall i | 0 <= i < |items|
        ensures AllEncodable(items[i]) && |AllOctets(items[i])| <= 0xFFFF
      {
        if i > 0 { assert items[1..][i - 1] == items[i]; }
      }
      assert ItemBodies(items)[1..] == ItemBodies(items[1..]);
    }
  }

  /** A list is read back item by item. */
  lemma ListReads(tag: byte, items: seq<seq<Node>>)
    requires LowTag(tag) && AllEncodable(Listed(tag, items))
    ensures forall i :: 0 <= i < |items| ==> AllEncodable(items[i])
    ensures ReadList(tag, AllOctets(Listed(tag, items))) == Some(ItemBodies(items))
  {
    ListedOctets(tag, items);
    ListRoundTrip(tag, ItemBodies(items));
  }
}
