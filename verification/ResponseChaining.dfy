/** Splitting a response over frames: the first frame goes out at once, the rest waits in
    the chain buffer for the reader to ask for it. */
module ResponseChaining {
  import opened Bytes
  import opened Limits
  import opened Arithmetic

  const EV1_LIMIT: nat := 59
  const EV3_LIMIT: nat := 58
  const EV3_FILE_IDS: nat := 54

  /** A frame as sent: more to come (status AF) or the last (status 00), or a refusal. */
  datatype Frame = Frame(more: bool, octets: seq<byte>) | Refused

  // ---- The frames of a response -------------------------------------------------------

  function Min(a: nat, b: nat): nat
  {
    if a < b then a else b
  }

  function ChunkSize(left: nat, frame: nat, last: nat, chunks: seq<nat>): (c: nat)
    requires 0 < frame <= last
    ensures c <= left
    ensures left > 0 && chunks == [] ==> c > 0
  {
    if chunks != [] then Min(chunks[0], left) else if left <= last then left else frame
  }

  /** The frames still owed for `octets`: listed chunk sizes first, then full frames, then
      one last frame that may be longer. */
  function Split(octets: seq<byte>, frame: nat, last: nat, chunks: seq<nat>): (f: seq<seq<byte>>)
    requires 0 < frame <= last
    ensures f == [] <==> octets == []
    decreases |octets| + |chunks|
  {
    if octets == [] then []
    else
      var c := ChunkSize(|octets|, frame, last, chunks);
      if c == |octets| then [octets]
      else [octets[..c]] + Split(octets[c..], frame, last, if chunks == [] then [] else chunks[1..])
  }

  lemma SplitStep(octets: seq<byte>, frame: nat, last: nat, chunks: seq<nat>, c: nat)
    requires 0 < frame <= last && octets != [] && c == ChunkSize(|octets|, frame, last, chunks)
    ensures var f := Split(octets, frame, last, chunks);
            && f[0] == octets[..c]
            && (c == |octets| ==> |f| == 1 && f[1..] == [])
            && (c < |octets| ==>
                  && |f| > 1
                  && f[1..] == Split(octets[c..], frame, last, if chunks == [] then [] else chunks[1..]))
  {
    assert octets[..|octets|] == octets;
    if c < |octets| {
      var g := Split(octets[c..], frame, last, if chunks == [] then [] else chunks[1..]);
      assert Split(octets, frame, last, chunks) == [octets[..c]] + g;
      assert ([octets[..c]] + g)[1..] == g;
    }
  }

  /** Nothing is lost, repeated or reordered. */
  lemma {:induction false} SplitJoins(octets: seq<byte>, frame: nat, last: nat, chunks: seq<nat>)
    requires 0 < frame <= last
    ensures Concat(Split(octets, frame, last, chunks)) == octets
    decreases |octets| + |chunks|
  {
    var f := Split(octets, frame, last, chunks);
    if octets != [] {
      var c := ChunkSize(|octets|, frame, last, chunks);
      if c == |octets| {
        assert f[1..] == [];
      } else {
        var rest := if chunks == [] then [] else chunks[1..];
        SplitJoins(octets[c..], frame, last, rest);
        assert f[0] == octets[..c] && f[1..] == Split(octets[c..], frame, last, rest);
      }
    }
  }

  /** Every frame but the last is full, the last is neither empty nor too long, and no frame
      could have been the last one before it. */
  predicate Framed(f: seq<seq<byte>>, frame: nat, last: nat)
  {
    && (forall i :: 0 <= i < |f| - 1 ==> |f[i]| == frame)
    && (f != [] ==> 0 < |f[|f| - 1]| <= last)
    && (|f| > 1 ==> frame + |f[|f| - 1]| > last)
  }

  lemma {:induction false} SplitFramed(octets: seq<byte>, frame: nat, last: nat)
    requires 0 < frame <= last
    ensures Framed(Split(octets, frame, last, []), frame, last)
    decreases |octets|
  {
    if |octets| > last {
      var f := Split(octets, frame, last, []);
      SplitFramed(octets[frame..], frame, last);
      var g := Split(octets[frame..], frame, last, []);
      assert f == [octets[..frame]] + g;
      assert forall i :: 0 < i < |f| - 1 ==> |f[i]| == |g[i - 1]|;
    }
  }

  function Sum(sizes: seq<nat>): nat
  {
    if sizes == [] then 0 else sizes[0] + Sum(sizes[1..])
  }

  /** Listed sizes that add up to the response are its frames. */
  lemma {:induction false} SplitByList(octets: seq<byte>, frame: nat, last: nat, chunks: seq<nat>)
    requires 0 < frame <= last && Sum(chunks) == |octets|
    requires forall i :: 0 <= i < |chunks| ==> chunks[i] > 0
    ensures |Split(octets, frame, last, chunks)| == |chunks|
    ensures forall i :: 0 <= i < |chunks| ==> |Split(octets, frame, last, chunks)[i]| == chunks[i]
    decreases |chunks|
  {
    if chunks != [] {
      if |chunks| > 1 { assert chunks[1] > 0; assert Sum(chunks[1..]) == chunks[1] + Sum(chunks[1..][1..]); }
      var f := Split(octets, frame, last, chunks);
      if chunks[0] < |octets| {
        SplitByList(octets[chunks[0]..], frame, last, chunks[1..]);
        var g := Split(octets[chunks[0]..], frame, last, chunks[1..]);
        assert f == [octets[..chunks[0]]] + g;
      } else {
        assert Sum(chunks[1..]) == 0 && |chunks| == 1;
      }
    }
  }

  // ---- Frame sizes ----------------------------------------------------------------------

  function Limit(ev3: bool): nat
  {
    if ev3 then EV3_LIMIT else EV1_LIMIT
  }

  /** What a frame must not split: a cipher block of an enciphered response, an entry of a
      listing, or an octet. */
  function Unit(entry: nat, block: nat): (u: nat)
    ensures u > 0
  {
    if block > 0 then block else if entry == 0 then 1 else entry
  }

  /** The largest whole number of units within the limit. */
  function WholeUnits(limit: nat, unit: nat): (f: nat)
    requires unit > 0
    ensures f <= limit < f + unit && f % unit == 0
    ensures f > 0 <==> unit <= limit
  {
    var q := limit / unit;
    assert limit == q * unit + limit % unit;
    DivModUnique(q * unit, q, unit, 0);
    assert q > 0 ==> q * unit >= unit;
    (limit / unit) * unit
  }

  /** The octets of an intermediate frame, zero when not even one unit fits. */
  function FramePayload(ev3: bool, entry: nat, block: nat, fileIds: bool): (f: nat)
    ensures f <= Limit(ev3)
  {
    hide WholeUnits;
    var f := WholeUnits(Limit(ev3), Unit(entry, block));
    if fileIds && ev3 && f > EV3_FILE_IDS then EV3_FILE_IDS else f
  }

  /** Intermediate frames hold whole blocks of an enciphered response and whole entries of a
      listing, as many as fit 58 octets on EV3 and 59 on EV1, and none only when not even one
      fits. */
  lemma FramesHoldWholeUnits(ev3: bool, entry: nat, block: nat, fileIds: bool)
    requires fileIds ==> entry == 2 && block == 0
    ensures var f := FramePayload(ev3, entry, block, fileIds); var most := if ev3 then 58 else 59;
      && f <= most
      && (block > 0 ==> f % block == 0 && (f > 0 <==> block <= most) && most < f + block)
      && (block == 0 && entry > 0 ==> f % entry == 0 && (f > 0 <==> entry <= most) && (!fileIds ==> most < f + entry))
      && (block == 0 && entry == 0 ==> f == most)
      && (fileIds ==> f == if ev3 then 54 else 58)
  {
    hide WholeUnits;
    assert EV3_FILE_IDS % 2 == 0;
  }

  lemma OctetFrames(ev3: bool)
    ensures FramePayload(ev3, 1, 0, false) == Limit(ev3)
  {
    FramesHoldWholeUnits(ev3, 1, 0, false);
  }

  /** All the frames a response is sent in. */
  function Response(ev3: bool, payload: seq<byte>, secured: bool, entry: nat, block: nat, fileIds: bool): (f: seq<seq<byte>>)
  {
    var frame := FramePayload(ev3, entry, block, fileIds);
    var last := if secured then Limit(ev3) else frame;
    if |payload| <= last then [payload]
    else
      var sent := if secured then payload else payload[..Min(|payload|, frame + CHAIN_BUFFER_SIZE)];
      var size := if frame > 0 then frame else Limit(ev3);
      [sent[..frame]] + Split(sent[frame..], size, if last > 0 then last else size, [])
  }

  lemma ZerosSplit(n: nat, c: nat)
    requires c <= n
    ensures Zeros(n)[..c] == Zeros(c) && Zeros(n)[c..] == Zeros(n - c)
  {
  }

  /** What is kept of a response that does not fit one frame. */
  function Kept(payload: seq<byte>, secured: bool, frame: nat): seq<byte>
    requires frame <= |payload|
  {
    if secured then payload[frame..] else payload[frame..frame + Min(|payload| - frame, CHAIN_BUFFER_SIZE)]
  }

  lemma ResponseParts(ev3: bool, payload: seq<byte>, secured: bool, entry: nat, block: nat, fileIds: bool)
    ensures var frame := FramePayload(ev3, entry, block, fileIds);
      var last := if secured then Limit(ev3) else frame;
      var size := if frame > 0 then frame else Limit(ev3);
      Response(ev3, payload, secured, entry, block, fileIds) ==
        if |payload| <= last then [payload]
        else [payload[..frame]] + Split(Kept(payload, secured, frame), size, if last > 0 then last else size, [])
  {
    hide Split, FramePayload;
    var frame := FramePayload(ev3, entry, block, fileIds);
    if !secured && frame < |payload| {
      var most := Min(|payload|, frame + CHAIN_BUFFER_SIZE);
      assert payload[..most][frame..] == payload[frame..most] && payload[..most][..frame] == payload[..frame];
    }
  }

  // ---- The chain ------------------------------------------------------------------------

  class Chain {
    const ev3: bool
    const buffer: array<byte>
    var length: nat
    var offset: nat
    var frame: nat
    var last: nat
    var chunks: seq<nat>
    var chunkIndex: nat
    var zero: bool

    ghost predicate Valid()
      reads this
    {
      && buffer.Length == CHAIN_BUFFER_SIZE && offset <= length && chunkIndex <= |chunks|
      && (zero ==> chunks == [] && ev3)
      && (!zero ==> length <= CHAIN_BUFFER_SIZE)
      && frame <= Limit(ev3) && last <= Limit(ev3) && (last > 0 ==> frame <= last)
      && (last > 0 && frame == 0 ==> last == Limit(ev3))
    }

    function FrameSize(): (f: nat)
      reads this
      requires Valid()
      ensures 0 < f <= Limit(ev3) && (frame == 0 ==> f == Limit(ev3))
    {
      hide FramePayload;
      OctetFrames(ev3);
      if frame > 0 then frame else FramePayload(ev3, 1, 0, false)
    }

    function LastSize(): (l: nat)
      reads this
      requires Valid()
      ensures FrameSize() <= l <= Limit(ev3)
    {
      if last > 0 then last else FrameSize()
    }

    /** The octets still to be sent. */
    ghost function Left(): (s: seq<byte>)
      reads this, buffer
      requires Valid()
      ensures |s| == length - offset
    {
      if zero then Zeros(length - offset) else buffer[offset..length]
    }

    /** The frames the reader can still fetch. */
    ghost function Owed(): seq<seq<byte>>
      reads this, buffer
      requires Valid()
    {
      Split(Left(), FrameSize(), LastSize(), chunks[chunkIndex..])
    }

    constructor (ev3: bool)
      ensures Valid() && Owed() == [] && fresh(buffer) && this.ev3 == ev3
    {
      this.ev3 := ev3;
      buffer := new byte[CHAIN_BUFFER_SIZE](_ => 0);
      length, offset, frame, last, chunks, chunkIndex, zero := 0, 0, 0, 0, [], 0, false;
    }

    /** Forgets the chain and wipes what it held. */
    method Clear()
      requires Valid()
      modifies this, buffer
      ensures Valid() && Owed() == [] && length == 0 && !zero && chunks == []
    {
      if length <= buffer.Length {
        for i := 0 to length
          invariant forall k :: 0 <= k < i ==> buffer[k] == 0
          invariant Valid() && length == old(length)
        {
          buffer[i] := 0;
        }
      }
      length, offset, frame, last, chunks, chunkIndex, zero := 0, 0, 0, 0, [], 0, false;
    }

    method Store(octets: seq<byte>)
      requires |octets| <= buffer.Length
      modifies buffer
      ensures buffer[..|octets|] == octets
    {
      for i := 0 to |octets|
        invariant buffer[..i] == octets[..i]
      {
        buffer[i] := octets[i];
      }
    }

    /** Answers a request for the next frame. */
    method Continue() returns (f: Frame)
      requires Valid()
      modifies this, buffer
      ensures Valid()
      ensures old(Owed()) == [] ==> f == Refused && Owed() == []
      ensures old(Owed()) != [] ==>
        && f == Frame(|old(Owed())| > 1, old(Owed())[0])
        && Owed() == old(Owed())[1..]
    {
      hide Split, FramePayload, ChunkSize;
      if offset >= length {
        Clear();
        return Refused;
      }
      var remaining := length - offset;
      var chunk := ChunkSize(remaining, FrameSize(), LastSize(), chunks[chunkIndex..]);
      SplitStep(Left(), FrameSize(), LastSize(), chunks[chunkIndex..], chunk);
      var octets := Advance(chunk);
      if chunk == remaining {
        Clear();
        return Frame(false, octets);
      }
      return Frame(true, octets);
    }

    /** Takes the next `chunk` octets, and with them the next listed size. */
    method Advance(chunk: nat) returns (octets: seq<byte>)
      requires Valid() && chunk <= length - offset
      modifies this`offset, this`chunkIndex
      ensures Valid() && octets == old(Left())[..chunk] && Left() == old(Left())[chunk..]
      ensures chunks[chunkIndex..] == old(if chunks[chunkIndex..] == [] then [] else chunks[chunkIndex..][1..])
    {
      hide Zeros;
      ghost var left, listed := Left(), chunks[chunkIndex..];
      if zero {
        octets := Zeros(chunk);
        ZerosSplit(length - offset, chunk);
        assert Zeros(length - (offset + chunk)) == left[chunk..];
      } else {
        octets := buffer[offset..offset + chunk];
        assert octets == left[..chunk] && buffer[offset + chunk..length] == left[chunk..];
      }
      if chunkIndex < |chunks| { chunkIndex := chunkIndex + 1; }
      assert chunks[chunkIndex..] == if listed == [] then [] else listed[1..];
      offset := offset + chunk;
    }

    /** Sends a response. A secured one is already in the buffer as a whole; of any other
        no more is kept than the buffer holds. */
    method Emit(payload: seq<byte>, secured: bool, entry: nat, block: nat, fileIds: bool) returns (first: Frame)
      requires Valid() && (secured ==> |payload| <= CHAIN_BUFFER_SIZE)
      modifies this, buffer
      ensures Valid() && first.Frame? && first.more == (Owed() != [])
      ensures [first.octets] + Owed() == Response(ev3, payload, secured, entry, block, fileIds)
    {
      hide Split, FramePayload, Response;
      Clear();
      ResponseParts(ev3, payload, secured, entry, block, fileIds);
      frame := FramePayload(ev3, entry, block, fileIds);
      last := if secured then Limit(ev3) else frame;
      if |payload| <= last {
        assert Left() == [];
        return Frame(false, payload);
      }
      first := Frame(true, payload[..frame]);
      Keep(payload, secured);
      assert chunks[chunkIndex..] == [];
    }

    /** Puts into the buffer what is still owed of a response. */
    method Keep(payload: seq<byte>, secured: bool)
      requires Valid() && !zero && frame < |payload| && (secured ==> |payload| <= CHAIN_BUFFER_SIZE)
      modifies this`length, this`offset, buffer
      ensures Valid() && Left() == Kept(payload, secured, frame) && Left() != []
    {
      if secured {
        Store(payload);
        length, offset := |payload|, frame;
        assert buffer[offset..length] == buffer[..length][offset..];
      } else {
        var remaining := Min(|payload| - frame, CHAIN_BUFFER_SIZE);
        Store(payload[frame..frame + remaining]);
        length, offset := remaining, 0;
      }
    }

    /** Sends a response of `count` zeros. One that fits the buffer is sent like any other,
        secured by the session where there is one; a longer one is sent without storing it,
        which only a plain native read on an EV3 card outside a session can ask for. */
    method EmitZeros(count: nat, authenticated: bool, plain: bool, isoRead: bool, secured: Option<seq<byte>>, block: nat)
      returns (first: Option<Frame>)
      requires Valid() && (secured.Some? ==> |secured.value| <= CHAIN_BUFFER_SIZE)
      modifies this, buffer
      ensures Valid()
      ensures first.Some? <==> count <= CHAIN_BUFFER_SIZE || (ev3 && !authenticated && plain && !isoRead)
      ensures first.None? ==> Owed() == if authenticated || !plain || isoRead then old(Owed()) else []
      ensures first.Some? ==>
        && first.value.Frame? && first.value.more == (Owed() != [])
        && [first.value.octets] + Owed() ==
             if count <= CHAIN_BUFFER_SIZE
             then Response(ev3, if secured.Some? then secured.value else Zeros(count), secured.Some?, 1, block, false)
             else Split(Zeros(count), EV3_LIMIT, EV3_LIMIT, [])
    {
      hide Split, FramePayload, Response;
      if count <= CHAIN_BUFFER_SIZE {
        var f := Emit(if secured.Some? then secured.value else Zeros(count), secured.Some?, 1, block, false);
        return Some(f);
      }
      if authenticated || !plain || isoRead { return None; }
      Clear();
      var size := FramePayload(ev3, 1, 0, false);
      OctetFrames(ev3);
      if size == 0 || size > EV3_LIMIT || count <= size { return None; }
      frame, last, length, offset, zero := size, size, count, size, true;
      SplitStep(Zeros(count), size, size, [], size);
      ZerosSplit(count, size);
      return Some(Frame(true, Zeros(size)));
    }

    /** Sends a listing of secured records, one to a frame; the last carries the code. */
    method EmitRecords(secured: seq<byte>, sizes: seq<nat>) returns (first: Frame)
      requires Valid() && |sizes| <= MAX_APPS && Sum(sizes) <= |secured| <= CHAIN_BUFFER_SIZE
      requires forall i :: 0 <= i < |sizes| ==> sizes[i] > 0
      modifies this, buffer
      ensures Valid() && first.Frame? && first.more == (Owed() != [])
      ensures IsListing([first.octets] + Owed(), secured, sizes)
    {
      hide Split, FramePayload, Sum, IsListing, LastExtended;
      Clear();
      if |sizes| <= 1 {
        SingleListing(secured, sizes);
        return Frame(false, secured);
      }
      ListingSplit(secured, sizes, EV1_LIMIT, EV1_LIMIT);
      Store(secured);
      length, offset, chunks := |secured|, sizes[0], LastExtended(sizes[1..], |secured| - Sum(sizes));
      first := Frame(true, secured[..sizes[0]]);
      assert buffer[offset..length] == secured[offset..] by { assert buffer[..length] == secured; }
      assert chunks[0..] == chunks;
      ListingSplit(secured, sizes, FrameSize(), LastSize());
    }
  }

  function LastExtended(sizes: seq<nat>, extra: nat): (e: seq<nat>)
    requires sizes != []
    ensures |e| == |sizes|
  {
    sizes[|sizes| - 1 := sizes[|sizes| - 1] + extra]
  }

  /** One frame to a record, with whatever follows the records in the last frame. */
  predicate IsListing(f: seq<seq<byte>>, secured: seq<byte>, sizes: seq<nat>)
  {
    && Concat(f) == secured
    && |f| == (if sizes == [] then 1 else |sizes|)
    && forall i :: 0 <= i < |f| - 1 ==> |f[i]| == sizes[i]
  }

  lemma {:induction false} SumExtended(sizes: seq<nat>, extra: nat)
    requires sizes != []
    ensures Sum(LastExtended(sizes, extra)) == Sum(sizes) + extra
  {
    if |sizes| > 1 {
      SumExtended(sizes[1..], extra);
      assert LastExtended(sizes, extra)[1..] == LastExtended(sizes[1..], extra);
    }
  }

  lemma SingleListing(secured: seq<byte>, sizes: seq<nat>)
    requires |sizes| <= 1
    ensures IsListing([secured] + [], secured, sizes)
  {
    assert ([secured] + [])[1..] == [];
  }

  lemma ListingSplit(secured: seq<byte>, sizes: seq<nat>, frame: nat, last: nat)
    requires 0 < frame <= last && |sizes| > 1 && Sum(sizes) <= |secured|
    requires forall i :: 0 <= i < |sizes| ==> sizes[i] > 0
    ensures sizes[0] < |secured|
    ensures IsListing([secured[..sizes[0]]] + Split(secured[sizes[0]..], frame, last,
                                                    LastExtended(sizes[1..], |secured| - Sum(sizes))), secured, sizes)
  {
    var rest := LastExtended(sizes[1..], |secured| - Sum(sizes));
    SumExtended(sizes[1..], |secured| - Sum(sizes));
    assert Sum(sizes[1..]) > 0 by { assert sizes[1..][0] == sizes[1] > 0; }
    var g := Split(secured[sizes[0]..], frame, last, rest);
    SplitJoins(secured[sizes[0]..], frame, last, rest);
    SplitByList(secured[sizes[0]..], frame, last, rest);
    var f := [secured[..sizes[0]]] + g;
    assert f[1..] == g;
    assert forall i :: 0 < i < |f| - 1 ==> |f[i]| == |g[i - 1]| == rest[i - 1] == sizes[1..][i - 1] == sizes[i];
  }

  // ---- What a reader receives -----------------------------------------------------------

  /** The octets that reach the reader. */
  function Sent(ev3: bool, payload: seq<byte>, secured: bool, entry: nat, block: nat, fileIds: bool): seq<byte>
  {
    if secured then payload
    else payload[..Min(|payload|, FramePayload(ev3, entry, block, fileIds) + CHAIN_BUFFER_SIZE)]
  }

  /** The frames join to the response exactly when it is secured or the part behind the
      first frame fits the buffer; a longer one silently loses its end. */
  lemma ResponseJoins(ev3: bool, payload: seq<byte>, secured: bool, entry: nat, block: nat, fileIds: bool)
    ensures var f := Response(ev3, payload, secured, entry, block, fileIds);
            && Concat(f) == Sent(ev3, payload, secured, entry, block, fileIds)
            && (Concat(f) == payload <==>
                secured || |payload| <= FramePayload(ev3, entry, block, fileIds) + CHAIN_BUFFER_SIZE)
  {
    hide Split, FramePayload;
    var frame := FramePayload(ev3, entry, block, fileIds);
    var last := if secured then Limit(ev3) else frame;
    var f := Response(ev3, payload, secured, entry, block, fileIds);
    if |payload| <= last {
      assert f[1..] == [];
    } else {
      var sent := Sent(ev3, payload, secured, entry, block, fileIds);
      var size := if frame > 0 then frame else Limit(ev3);
      SplitJoins(sent[frame..], size, if last > 0 then last else size, []);
      assert f[1..] == Split(sent[frame..], size, if last > 0 then last else size, []);
    }
  }

  /** On an EV1 card a clear response of one frame and 2081 octets arrives without its last
      octet. */
  lemma LongResponseLosesItsEnd()
    ensures Concat(Response(false, Zeros(2140), false, 1, 0, false)) == Zeros(2139) != Zeros(2140)
  {
    hide Response;
    OctetFrames(false);
    ResponseJoins(false, Zeros(2140), false, 1, 0, false);
    assert Zeros(2140)[..2139] == Zeros(2139);
    assert |Zeros(2139)| != |Zeros(2140)|;
  }

  /** The part of a file a ReadData command asks for; a length of zero asks for all that
      follows the offset. */
  function ReadPart(data: seq<byte>, offset: nat, requested: nat): (part: Option<seq<byte>>)
    ensures part.Some? <==> offset + requested <= |data|
  {
    if offset > |data| || (requested != 0 && offset + requested > |data|) then None
    else Some(if requested == 0 then data[offset..] else data[offset..offset + requested])
  }

  /** A clear read of this part of the file arrives as it is. */
  predicate ReadArrives(ev3: bool, data: seq<byte>, offset: nat, requested: nat)
    requires offset + requested <= |data|
  {
    var part := ReadPart(data, offset, requested).value;
    Concat(Response(ev3, part, false, 1, 0, false)) == part
  }

  /** Every part of a plain file is read as it is exactly when the file stores no more than
      one frame and the buffer hold, so every file the card itself has sized is. */
  lemma ReadDataArrives(ev3: bool, data: seq<byte>)
    ensures (forall offset: nat, requested: nat :: offset + requested <= |data| ==> ReadArrives(ev3, data, offset, requested))
        <==> |data| <= Limit(ev3) + CHAIN_BUFFER_SIZE
    ensures |data| <= MAX_FILE_DATA ==>
      forall offset: nat, requested: nat :: offset + requested <= |data| ==> ReadArrives(ev3, data, offset, requested)
  {
    hide Response, FramePayload;
    OctetFrames(ev3);
    forall offset: nat, requested: nat | offset + requested <= |data|
      ensures |data| <= Limit(ev3) + CHAIN_BUFFER_SIZE ==> ReadArrives(ev3, data, offset, requested)
    {
      ResponseJoins(ev3, ReadPart(data, offset, requested).value, false, 1, 0, false);
    }
    ResponseJoins(ev3, data, false, 1, 0, false);
    assert data[0..] == data;
    assert ReadArrives(ev3, data, 0, 0) ==> |data| <= Limit(ev3) + CHAIN_BUFFER_SIZE;
  }

  /** A response of zeros longer than the buffer arrives whole. */
  lemma ZerosArrive(count: nat)
    requires count > 0
    ensures Concat(Split(Zeros(count), EV3_LIMIT, EV3_LIMIT, [])) == Zeros(count)
    ensures Framed(Split(Zeros(count), EV3_LIMIT, EV3_LIMIT, []), EV3_LIMIT, EV3_LIMIT)
  {
    SplitJoins(Zeros(count), EV3_LIMIT, EV3_LIMIT, []);
    SplitFramed(Zeros(count), EV3_LIMIT, EV3_LIMIT);
  }

  /** No frame exceeds what the generation allows; every frame but the last is the same
      whole number of entries or blocks, unless not even one entry fits a frame; and the last
      could not have been joined to the one before it. */
  lemma ResponseFramed(ev3: bool, payload: seq<byte>, secured: bool, entry: nat, block: nat, fileIds: bool)
    ensures var f := Response(ev3, payload, secured, entry, block, fileIds);
            var frame := FramePayload(ev3, entry, block, fileIds);
            && (forall i :: 0 <= i < |f| ==> |f[i]| <= Limit(ev3))
            && (frame > 0 ==> forall i :: 0 <= i < |f| - 1 ==> |f[i]| == frame)
            && (frame > 0 && !secured ==> |f[|f| - 1]| <= frame)
            && (|f| > 1 ==> |f[|f| - 1]| > 0)
            && (|f| > 1 && frame > 0 ==> frame + |f[|f| - 1]| > if secured then Limit(ev3) else frame)
  {
    hide Split, FramePayload;
    var frame := FramePayload(ev3, entry, block, fileIds);
    var last := if secured then Limit(ev3) else frame;
    var f := Response(ev3, payload, secured, entry, block, fileIds);
    if |payload| > last {
      var sent := Sent(ev3, payload, secured, entry, block, fileIds);
      var size := if frame > 0 then frame else Limit(ev3);
      var most := if last > 0 then last else size;
      SplitFramed(sent[frame..], size, most);
      var g := Split(sent[frame..], size, most, []);
      assert f == [sent[..frame]] + g;
      assert forall i :: 0 < i < |f| ==> f[i] == g[i - 1];
      if |g| == 1 {
        SplitJoins(sent[frame..], size, most, []);
        assert g[1..] == [] && Concat(g) == g[0];
      }
    }
  }

  /** A reader that keeps asking gets the whole response, with status AF on every frame
      but the last, and then nothing more. */
  method Fetch(chain: Chain, payload: seq<byte>, secured: bool, entry: nat, block: nat, fileIds: bool)
    returns (frames: seq<Frame>)
    requires chain.Valid() && (secured ==> |payload| <= CHAIN_BUFFER_SIZE)
    modifies chain, chain.buffer
    ensures chain.Valid() && chain.Owed() == []
    ensures |frames| == |Response(chain.ev3, payload, secured, entry, block, fileIds)|
    ensures forall i :: 0 <= i < |frames| ==>
      frames[i] == Frame(i < |frames| - 1, Response(chain.ev3, payload, secured, entry, block, fileIds)[i])
  {
    hide Split, FramePayload, Response, Chain.Owed;
    ghost var response := Response(chain.ev3, payload, secured, entry, block, fileIds);
    var f := chain.Emit(payload, secured, entry, block, fileIds);
    frames := [f];
    while frames[|frames| - 1].more
      invariant 0 < |frames| <= |response| && chain.Valid()
      invariant chain.Owed() == response[|frames|..]
      invariant forall i :: 0 <= i < |frames| ==> frames[i] == Frame(i < |response| - 1, response[i])
      decreases |response| - |frames|
    {
      ghost var owed := chain.Owed();
      f := chain.Continue();
      assert owed[1..] == response[|frames| + 1..] && owed[0] == response[|frames|];
      frames := frames + [f];
    }
  }
}
