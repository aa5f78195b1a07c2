/** The components of one SEQUENCE: elements whose tags follow a declared order, each
    at most once. Reading keeps only where each element starts and takes the body
    from there again later. */
module DerFields {
  import opened Bytes
  import opened DerTlv

  /** What a SEQUENCE holds, one entry per declared tag. */
  type Record = seq<Option<octets>>

  /** Declared tags are distinct and of the low form. */
  predicate OrderOk(order: octets)
  {
    && (forall i :: 0 <= i < |order| ==> LowTag(order[i]))
    && (forall i, j :: 0 <= i < j < |order| ==> order[i] != order[j])
  }

  predicate RecordOk(r: Record)
  {
    forall i :: 0 <= i < |r| && r[i].Some? ==> |r[i].value| <= 0xFFFF
  }

  function NoFields(n: nat): (r: Record)
    ensures |r| == n && forall i :: 0 <= i < n ==> r[i] == None
  {
    seq(n, i => None)
  }

  /** The components from tag number `from` on, in declared order. */
  function FieldOctets(order: octets, from: nat, r: Record): octets
    requires from + |r| == |order| && RecordOk(r)
    decreases |r|
  {
    if r == [] then []
    else (if r[0].Some? then Tlv(order[from], r[0].value) else []) + FieldOctets(order, from + 1, r[1..])
  }

  /** The first position of a tag in the order; its length when it is not there. */
  function IndexOf(order: octets, tag: byte): (i: nat)
    ensures i <= |order|
    ensures i < |order| ==> order[i] == tag
    ensures forall j :: 0 <= j < i ==> order[j] != tag
  {
    if order == [] then 0 else if order[0] == tag then 0 else 1 + IndexOf(order[1..], tag)
  }

  /** Reads components whose tags come no earlier than `cursor` in the order. */
  function ReadFields(order: octets, cursor: nat, s: octets): (r: Option<Record>)
    requires cursor <= |order|
    ensures r.Some? ==> |r.value| == |order| - cursor
    decreases |s|
  {
    if s == [] then Some(NoFields(|order| - cursor))
    else match ParseTlv(s)
      case None => None
      case Some(e) =>
        var i := IndexOf(order, e.tag);
        if i == |order| || i < cursor then None
        else match ReadFields(order, i + 1, e.rest)
          case None => None
          case Some(more) => Some(NoFields(i - cursor) + [Some(e.body)] + more)
  }

  // ---- Acceptance is exactly being a written record ------------------------------------

  /** One step of reading. */
  lemma ReadStep(order: octets, cursor: nat, s: octets)
    requires cursor <= |order| && s != []
    ensures var r := ReadFields(order, cursor, s);
      match ParseTlv(s)
      case None => r == None
      case Some(e) =>
        var i := IndexOf(order, e.tag);
        if i == |order| || i < cursor then r == None
        else
          var more := ReadFields(order, i + 1, e.rest);
          r == if more.None? then None else Some(NoFields(i - cursor) + ([Some(e.body)] + more.value))
  {
    if ParseTlv(s).Some? {
      var e := ParseTlv(s).value;
      var i := IndexOf(order, e.tag);
      if cursor <= i < |order| {
        var more := ReadFields(order, i + 1, e.rest);
        if more.Some? {
          assert NoFields(i - cursor) + [Some(e.body)] + more.value == NoFields(i - cursor) + ([Some(e.body)] + more.value);
        }
      }
    }
  }

  /** One step of writing. */
  lemma WriteStep(order: octets, from: nat, r: Record)
    requires from + |r| == |order| && RecordOk(r) && r != []
    ensures FieldOctets(order, from, r)
         == (if r[0].Some? then Tlv(order[from], r[0].value) else []) + FieldOctets(order, from + 1, r[1..])
  {
  }

  lemma {:induction false} NoFieldsOctets(order: octets, from: nat)
    requires from <= |order|
    ensures FieldOctets(order, from, NoFields(|order| - from)) == []
    decreases |order| - from
  {
    var r := NoFields(|order| - from);
    if r != [] {
      assert r[1..] == NoFields(|order| - (from + 1));
      NoFieldsOctets(order, from + 1);
    }
  }

  lemma {:induction false} SkippedFieldsOctets(order: octets, from: nat, skip: nat, r: Record)
    requires from + skip + |r| == |order| && RecordOk(r)
    ensures RecordOk(NoFields(skip) + r)
    ensures FieldOctets(order, from, NoFields(skip) + r) == FieldOctets(order, from + skip, r)
    decreases skip
  {
    if skip == 0 {
      assert NoFields(0) + r == r;
    } else {
      assert (NoFields(skip) + r)[1..] == NoFields(skip - 1) + r;
      SkippedFieldsOctets(order, from + 1, skip - 1, r);
    }
  }

  lemma {:induction false} ReadRecordIsWritten(order: octets, cursor: nat, s: octets)
    requires cursor <= |order| && ReadFields(order, cursor, s).Some?
    ensures RecordOk(ReadFields(order, cursor, s).value)
    ensures s == FieldOctets(order, cursor, ReadFields(order, cursor, s).value)
    decreases |s|
  {
    hide ReadFields;
    hide FieldOctets;
    hide ParseTlv;
    hide Tlv;
    hide IndexOf;
    if s == [] {
      ReadNothing(order, cursor);
      NoFieldsOctets(order, cursor);
    } else {
      ReadStep(order, cursor, s);
      ReadIsWritten(s);
      var e := ParseTlv(s).value;
      var i := IndexOf(order, e.tag);
      ReadRecordIsWritten(order, i + 1, e.rest);
      var more := ReadFields(order, i + 1, e.rest).value;
      var own := [Some(e.body)] + more;
      WriteStep(order, i, own);
      assert own[1..] == more;
      SkippedFieldsOctets(order, cursor, i - cursor, own);
    }
  }

  lemma {:induction false} WrittenRecordIsRead(order: octets, cursor: nat, r: Record)
    requires OrderOk(order) && cursor + |r| == |order| && RecordOk(r)
    ensures ReadFields(order, cursor, FieldOctets(order, cursor, r)) == Some(r)
    decreases |r|
  {
    hide ReadFields;
    hide ParseTlv;
    hide Tlv;
    hide IndexOf;
    if r != [] {
      var rest := FieldOctets(order, cursor + 1, r[1..]);
      WriteStep(order, cursor, r);
      WrittenRecordIsRead(order, cursor + 1, r[1..]);
      if r[0].Some? {
        TlvNotEmpty(order[cursor], r[0].value);
        var s := Tlv(order[cursor], r[0].value) + rest;
        WrittenIsRead(order[cursor], r[0].value, rest);
        ReadStep(order, cursor, s);
        assert IndexOf(order, order[cursor]) == cursor;
        assert NoFields(0) + ([r[0]] + r[1..]) == r;
      } else {
        EarlierCursor(order, cursor, rest);
        assert [] + rest == rest;
        assert [None] + r[1..] == r;
      }
    } else {
      ReadNothing(order, cursor);
      assert NoFields(0) == r;
    }
  }

  lemma TlvNotEmpty(tag: byte, body: octets)
    requires |body| <= 0xFFFF
    ensures |Tlv(tag, body)| > 0
  {
  }

  /** What is read from a later cursor is read from an earlier one, with a gap. */
  lemma EarlierCursor(order: octets, cursor: nat, s: octets)
    requires cursor < |order| && ReadFields(order, cursor + 1, s).Some?
    ensures ReadFields(order, cursor, s) == Some([None] + ReadFields(order, cursor + 1, s).value)
  {
    hide ReadFields;
    hide ParseTlv;
    hide IndexOf;
    if s == [] {
      ReadNothing(order, cursor);
      ReadNothing(order, cursor + 1);
      assert NoFields(|order| - cursor) == [None] + NoFields(|order| - cursor - 1);
    } else {
      ReadStep(order, cursor, s);
      ReadStep(order, cursor + 1, s);
      var e := ParseTlv(s).value;
      var i := IndexOf(order, e.tag);
      var own := [Some(e.body)] + ReadFields(order, i + 1, e.rest).value;
      OneMoreGap(i - cursor, own);
    }
  }

  lemma OneMoreGap(n: nat, own: Record)
    requires n > 0
    ensures NoFields(n) + own == [None] + (NoFields(n - 1) + own)
  {
  }

  /** A body is accepted exactly when it is a row of well-formed elements whose tags
      are a strictly increasing selection of the declared ones, and then it is the
      only encoding of what was read. */
  lemma FieldsCanonical(order: octets, s: octets, r: Record)
    requires OrderOk(order)
    ensures ReadFields(order, 0, s) == Some(r) <==> |r| == |order| && RecordOk(r) && s == FieldOctets(order, 0, r)
  {
    if ReadFields(order, 0, s) == Some(r) { ReadRecordIsWritten(order, 0, s); }
    if |r| == |order| && RecordOk(r) && s == FieldOctets(order, 0, r) { WrittenRecordIsRead(order, 0, r); }
  }

  // ---- The field index ---------------------------------------------------------------------

  const MAX_COMPONENTS: nat := 17

  /** Where each present component starts. */
  datatype Fields = Fields(base: octets, order: octets, present: seq<bool>, offset: seq<nat>)

  /** The index describes a record: a present component's element starts at its offset. */
  ghost predicate Describes(f: Fields, r: Record)
  {
    && |f.order| == |f.present| == |f.offset| == |r|
    && forall i :: 0 <= i < |r| ==> DescribesAt(f, i, r[i])
  }

  ghost predicate DescribesAt(f: Fields, i: nat, entry: Option<octets>)
    requires i < |f.present| == |f.offset|
  {
    if f.present[i] then
      && f.offset[i] <= |f.base| && ParseTlv(f.base[f.offset[i]..]).Some?
      && entry == Some(ParseTlv(f.base[f.offset[i]..]).value.body)
    else entry == None
  }

  /** Indexes the components of a body. */
  method IndexFields(body: octets, order: octets) returns (ok: bool, f: Fields)
    requires OrderOk(order) && |body| <= DER_MAX_SIZE
    ensures ok <==> |order| <= MAX_COMPONENTS && ReadFields(order, 0, body).Some?
    ensures ok ==> f.base == body && f.order == order && Describes(f, ReadFields(order, 0, body).value)
  {
    f := Fields(body, order, seq(|order|, i => false), seq(|order|, i => 0));
    ok := false;
    if |order| > MAX_COMPONENTS { return; }
    var cursor, at: nat := 0, 0;
    ghost var done: Record := [];
    ghost var whole := ReadFields(order, 0, body);
    assert body[0..] == body;
    assert whole.Some? ==> done + whole.value == whole.value;
    hide ReadFields;
    hide DescribesAt;
    var good := true;
    while good && at < |body|
      invariant good ==> Reading(f, body, order, cursor, at, done, whole)
      invariant !good ==> whole == None
      decreases good, |body| - at
    {
      good, f, cursor, at, done := NextField(f, body, order, cursor, at, done, whole);
    }
    if !good { return; }
    assert body[at..] == [];
    ReadNothing(order, cursor);
    DescribesRest(f, done, cursor);
    ok := true;
  }

  /** `done` is what the index describes so far, and reading on from `at` gives the rest. */
  ghost predicate Reading(f: Fields, body: octets, order: octets, cursor: nat, at: nat, done: Record, whole: Option<Record>)
  {
    && at <= |body| && cursor <= |order| && |done| == cursor
    && f.base == body && f.order == order && |f.present| == |f.offset| == |order|
    && (forall i :: 0 <= i < cursor ==> DescribesAt(f, i, done[i]))
    && (forall i :: cursor <= i < |order| ==> !f.present[i])
    && whole == After(done, ReadFields(order, cursor, body[at..]))
  }

  /** Reads and enters one element: unknown, repeated or misplaced tags are refused. */
  method NextField(f: Fields, body: octets, order: octets, cursor: nat, at: nat, ghost done: Record, ghost whole: Option<Record>)
    returns (good: bool, g: Fields, next: nat, end: nat, ghost more: Record)
    requires Reading(f, body, order, cursor, at, done, whole) && at < |body|
    ensures good ==> Reading(g, body, order, next, end, more, whole) && end > at
    ensures !good ==> whole == None
  {
    hide ReadFields;
    hide ParseTlv;
    hide DescribesAt;
    hide IndexOf;
    hide NoFields;
    g, next, end, more := f, cursor, at, done;
    ReadStep(order, cursor, body[at..]);
    var tag, bodyAt, bodyLen;
    good, tag, bodyAt, bodyLen := ReadTlv(body, at);
    if !good { return; }
    var idx := FindTag(order, tag);
    if idx == |order| || f.present[idx] || idx < cursor { return false, f, cursor, at, done; }
    AfterStep(done, order, cursor, body[at..]);
    ParsedNotEmpty(body[at..]);
    DescribesMore(f, done, cursor, idx, at);
    more := done + NoFields(idx - cursor) + [Some(ParseTlv(body[at..]).value.body)];
    g := f.(present := f.present[idx := true], offset := f.offset[idx := at]);
    next := idx + 1;
    end := bodyAt + bodyLen;
  }

  /** Entering one more element keeps the index a description of what was read. */
  lemma DescribesMore(f: Fields, done: Record, cursor: nat, idx: nat, at: nat)
    requires |f.present| == |f.offset| && |done| == cursor <= idx < |f.present|
    requires at <= |f.base| && ParseTlv(f.base[at..]).Some?
    requires forall i :: 0 <= i < cursor ==> DescribesAt(f, i, done[i])
    requires forall i :: cursor <= i < |f.present| ==> !f.present[i]
    ensures var g := f.(present := f.present[idx := true], offset := f.offset[idx := at]);
      var more := done + NoFields(idx - cursor) + [Some(ParseTlv(f.base[at..]).value.body)];
      && |more| == idx + 1
      && (forall i :: 0 <= i <= idx ==> DescribesAt(g, i, more[i]))
      && (forall i :: idx < i < |g.present| ==> !g.present[i])
  {
    hide ParseTlv;
    var g := f.(present := f.present[idx := true], offset := f.offset[idx := at]);
    var more := done + NoFields(idx - cursor) + [Some(ParseTlv(f.base[at..]).value.body)];
    forall i | 0 <= i <= idx
      ensures DescribesAt(g, i, more[i])
    {
      if i < cursor { assert DescribesAt(f, i, done[i]); }
    }
  }

  lemma DescribesRest(f: Fields, done: Record, cursor: nat)
    requires |f.order| == |f.present| == |f.offset| && |done| == cursor <= |f.present|
    requires forall i :: 0 <= i < cursor ==> DescribesAt(f, i, done[i])
    requires forall i :: cursor <= i < |f.present| ==> !f.present[i]
    ensures Describes(f, done + NoFields(|f.present| - cursor))
  {
    hide ParseTlv;
    var all := done + NoFields(|f.present| - cursor);
    forall i | 0 <= i < |all|
      ensures DescribesAt(f, i, all[i])
    {
      if i < cursor { assert DescribesAt(f, i, done[i]); }
    }
  }

  lemma ReadNothing(order: octets, cursor: nat)
    requires cursor <= |order|
    ensures ReadFields(order, cursor, []) == Some(NoFields(|order| - cursor))
  {
  }

  lemma ParsedNotEmpty(s: octets)
    requires ParseTlv(s).Some?
    ensures ParseTlv(s).value.header >= 2
  {
  }

  ghost function After(done: Record, rest: Option<Record>): Option<Record>
  {
    if rest.None? then None else Some(done + rest.value)
  }

  lemma AfterStep(done: Record, order: octets, cursor: nat, s: octets)
    requires cursor <= |order| && s != [] && ParseTlv(s).Some?
    requires cursor <= IndexOf(order, ParseTlv(s).value.tag) < |order|
    ensures var e := ParseTlv(s).value; var i := IndexOf(order, e.tag);
      After(done, ReadFields(order, cursor, s))
      == After(done + NoFields(i - cursor) + [Some(e.body)], ReadFields(order, i + 1, e.rest))
  {
    ReadStep(order, cursor, s);
    hide ReadFields;
    var e := ParseTlv(s).value;
    var i := IndexOf(order, e.tag);
    if ReadFields(order, i + 1, e.rest).Some? {
      var own := [Some(e.body)] + ReadFields(order, i + 1, e.rest).value;
      assert done + (NoFields(i - cursor) + own) == (done + NoFields(i - cursor) + [Some(e.body)]) + ReadFields(order, i + 1, e.rest).value;
    }
  }

  method FindTag(order: octets, tag: byte) returns (i: nat)
    ensures i == IndexOf(order, tag)
  {
    i := 0;
    while i < |order|
      invariant i <= |order| && forall j :: 0 <= j < i ==> order[j] != tag
    {
      if order[i] == tag { return; }
      i := i + 1;
    }
  }

  /** Takes a body from where its element starts, without checking bounds again. */
  method FieldBody(base: octets, at: nat) returns (body: octets)
    requires at <= |base| && ParseTlv(base[at..]).Some?
    ensures body == ParseTlv(base[at..]).value.body
  {
    ghost var t := base[at..];
    var header: nat := 2;
    var length: nat := base[at + 1];
    if length >= 128 {
      var count: nat := length - 128;
      length := 0;
      var i := 0;
      while i < count
        invariant 0 <= i <= count <= 2 && |t| >= 2 + count
        invariant length == if i == 0 then 0 else if i == 1 then t[2] as int else t[2] as int * 256 + t[3]
      {
        length := length * 256 + base[at + 2 + i];
        i := i + 1;
      }
      header := header + count;
    }
    assert ParseTlv(t) == Some(Element(t[0], header, t[header..header + length], t[header + length..]));
    assert t[header..header + length] == base[at + header..at + header + length];
    body := base[at + header..at + header + length];
  }

  /** Looks a component up and takes its body: precisely what was validated. */
  method GetField(f: Fields, tag: byte, ghost r: Record) returns (body: Option<octets>)
    requires OrderOk(f.order) && Describes(f, r)
    ensures var i := IndexOf(f.order, tag); body == if i < |r| then r[i] else None
  {
    var i := 0;
    while i < |f.order|
      invariant 0 <= i <= |f.order|
      invariant forall j :: 0 <= j < i && f.order[j] == tag ==> !f.present[j]
    {
      if f.order[i] == tag && f.present[i] {
        assert DescribesAt(f, i, r[i]);
        var b := FieldBody(f.base, f.offset[i]);
        return Some(b);
      }
      i := i + 1;
    }
    ghost var k := IndexOf(f.order, tag);
    assert k < |r| ==> DescribesAt(f, k, r[k]);
    return None;
  }
}
