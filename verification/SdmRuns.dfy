/** Runs of SDM reads: any files of an application, read in any order through the one
    cache, by cards that may differ from read to read. */
module SdmRuns {
  import opened Bytes
  import opened SdmRendering
  import opened SdmReader

  datatype Request =
    | Read(card: Card, index: nat, family: Family, padding: Option<Octets>)
    | RetireCache

  datatype Outcome = Rendered(view: Octets) | FromCache(view: Octets) | Refused | Retired

  /** A file as a run sees it: everything but its counter stays as it is. */
  datatype Source = Source(number: byte, settings: Settings, data: Octets)

  datatype Cached = Cached(number: byte, family: Family, view: Octets)

  datatype Progress = Progress(counters: seq<nat>, cached: Option<Cached>)

  // ---- What a run answers -----------------------------------------------------------------

  ghost predicate Proper(files: seq<Source>, q: Request)
  {
    q.Read? ==> q.index < |files| && IsCard(q.card) && Padded(files[q.index].settings, q.card, q.padding)
  }

  predicate Matches(cached: Option<Cached>, f: Source, family: Family)
  {
    cached.Some? && cached.value.number == f.number && cached.value.family == family
  }

  ghost predicate CanShow(f: Source, counter: nat, q: Request)
    requires q.Read? && IsCard(q.card) && Padded(f.settings, q.card, q.padding)
  {
    CanRender(q.card, f.settings, f.data, counter, q.padding)
  }

  ghost function ViewAt(f: Source, counter: nat, q: Request): Octets
    requires q.Read? && IsCard(q.card) && Padded(f.settings, q.card, q.padding) && CanShow(f, counter, q)
  {
    View(q.card, f.settings, f.data, counter, q.padding)
  }

  ghost function Answer(files: seq<Source>, busy: bool, p: Progress, q: Request): (r: (Progress, Outcome))
    requires |p.counters| == |files| && Proper(files, q)
    ensures |r.0.counters| == |files|
  {
    match q
    case RetireCache => (p.(cached := None), Retired)
    case Read(_, i, family, _) =>
      if busy then (p, Refused)
      else if Matches(p.cached, files[i], family) then (p, FromCache(p.cached.value.view))
      else if !CanShow(files[i], p.counters[i], q) then (p, Refused)
      else
        var v := ViewAt(files[i], p.counters[i], q);
        (Progress(p.counters[i := p.counters[i] + 1], Some(Cached(files[i].number, family, v))), Rendered(v))
  }

  ghost predicate AllProper(files: seq<Source>, requests: seq<Request>)
  {
    forall k :: 0 <= k < |requests| ==> Proper(files, requests[k])
  }

  /** The progress and the outcomes after all requests. */
  ghost function Answers(files: seq<Source>, busy: bool, p: Progress, requests: seq<Request>): (r: (Progress, seq<Outcome>))
    requires |p.counters| == |files| && AllProper(files, requests)
    ensures |r.0.counters| == |files| && |r.1| == |requests|
  {
    if requests == [] then (p, [])
    else
      var last := |requests| - 1;
      var before := Answers(files, busy, p, requests[..last]);
      var now := Answer(files, busy, before.0, requests[last]);
      (now.0, before.1 + [now.1])
  }

  // ---- What counters count ----------------------------------------------------------------

  /** How many of the requests rendered a new view of file `i`. */
  function Renderings(requests: seq<Request>, outcomes: seq<Outcome>, i: nat): nat
    requires |requests| == |outcomes|
  {
    if requests == [] then 0
    else
      var last := |requests| - 1;
      Renderings(requests[..last], outcomes[..last], i)
      + if requests[last].Read? && requests[last].index == i && outcomes[last].Rendered? then 1 else 0
  }

  /** A counter counts exactly the new views of its file. */
  lemma {:induction false} CountersCount(files: seq<Source>, busy: bool, p: Progress, requests: seq<Request>, i: nat)
    requires |p.counters| == |files| && AllProper(files, requests) && i < |files|
    ensures var r := Answers(files, busy, p, requests);
      r.0.counters[i] == p.counters[i] + Renderings(requests, r.1, i)
  {
    hide CanShow, ViewAt, Matches;
    if requests != [] {
      var last := |requests| - 1;
      CountersCount(files, busy, p, requests[..last], i);
      assert Answers(files, busy, p, requests).1[..last] == Answers(files, busy, p, requests[..last]).1;
    }
  }

  /** The counter passes neither its width nor its limit. */
  lemma {:induction false} CountersBounded(files: seq<Source>, busy: bool, p: Progress, requests: seq<Request>, i: nat)
    requires |p.counters| == |files| && AllProper(files, requests) && i < |files|
    ensures var counter := Answers(files, busy, p, requests).0.counters[i];
      && (p.counters[i] <= 0xFFFFFF ==> counter <= 0xFFFFFF)
      && (files[i].settings.limit.Some? && p.counters[i] <= files[i].settings.limit.value ==> counter <= files[i].settings.limit.value)
  {
    hide ViewAt, Matches, IsCard;
    if requests != [] {
      var last := |requests| - 1;
      CountersBounded(files, busy, p, requests[..last], i);
      StepBounded(files, busy, Answers(files, busy, p, requests[..last]).0, requests[last], i);
    }
  }

  lemma StepBounded(files: seq<Source>, busy: bool, p: Progress, q: Request, i: nat)
    requires |p.counters| == |files| && Proper(files, q) && i < |files|
    ensures var counter := Answer(files, busy, p, q).0.counters[i];
      counter == p.counters[i] || (counter == p.counters[i] + 1 <= 0xFFFFFF && (files[i].settings.limit.Some? ==> counter <= files[i].settings.limit.value))
  {
  }

  lemma {:induction false} AnswersPrefix(files: seq<Source>, busy: bool, p: Progress, requests: seq<Request>, k: nat)
    requires |p.counters| == |files| && AllProper(files, requests) && k <= |requests|
    ensures Answers(files, busy, p, requests).1[..k] == Answers(files, busy, p, requests[..k]).1
    ensures k < |requests| ==>
      Answers(files, busy, p, requests).1[k] == Answer(files, busy, Answers(files, busy, p, requests[..k]).0, requests[k]).1
  {
    hide Answer;
    if k == |requests| {
      assert requests[..k] == requests;
    } else {
      var last := |requests| - 1;
      AnswersPrefix(files, busy, p, requests[..last], k);
      assert requests[..last][..k] == requests[..k];
    }
  }

  /** The outcome is the new view this request shows at this counter. */
  ghost predicate IsNewView(files: seq<Source>, counter: nat, q: Request, outcome: Outcome)
  {
    && q.Read? && Proper(files, q) && CanShow(files[q.index], counter, q)
    && outcome == Rendered(ViewAt(files[q.index], counter, q))
  }

  lemma AnswerNewView(files: seq<Source>, busy: bool, p: Progress, q: Request)
    requires |p.counters| == |files| && Proper(files, q) && Answer(files, busy, p, q).1.Rendered?
    ensures q.Read? && q.index < |files| && IsNewView(files, p.counters[q.index], q, Answer(files, busy, p, q).1)
  {
    hide CanShow, ViewAt, Matches, IsCard, Padded;
  }

  /** The k-th request shows a new view exactly as the counter stood after the renderings
      before it, so no two new views of a file share a counter value. */
  lemma RenderedWithItsCounter(files: seq<Source>, busy: bool, p: Progress, requests: seq<Request>, k: nat)
    requires |p.counters| == |files| && AllProper(files, requests) && k < |requests|
    requires Answers(files, busy, p, requests).1[k].Rendered?
    ensures requests[k].Read? && requests[k].index < |files|
    ensures var r := Answers(files, busy, p, requests); var i := requests[k].index;
      IsNewView(files, p.counters[i] + Renderings(requests[..k], r.1[..k], i), requests[k], r.1[k])
  {
    hide Answer, IsNewView, Proper;
    AnswersPrefix(files, busy, p, requests, k);
    AnswerNewView(files, busy, Answers(files, busy, p, requests[..k]).0, requests[k]);
    CountersCount(files, busy, p, requests[..k], requests[k].index);
  }

  lemma {:induction false} RenderingsGrow(requests: seq<Request>, outcomes: seq<Outcome>, j: nat, i: nat)
    requires |requests| == |outcomes| && j < |requests|
    requires requests[j].Read? && requests[j].index == i && outcomes[j].Rendered?
    ensures Renderings(requests[..j], outcomes[..j], i) < Renderings(requests, outcomes, i)
  {
    var last := |requests| - 1;
    if j < last {
      RenderingsGrow(requests[..last], outcomes[..last], j, i);
      assert requests[..last][..j] == requests[..j] && outcomes[..last][..j] == outcomes[..j];
    }
  }

  /** Two new views of one file carry different counters, the later one the larger. */
  lemma NewViewsAreNumbered(files: seq<Source>, busy: bool, p: Progress, requests: seq<Request>, j: nat, k: nat)
    requires |p.counters| == |files| && AllProper(files, requests) && j < k < |requests|
    requires var r := Answers(files, busy, p, requests);
      r.1[j].Rendered? && r.1[k].Rendered? && requests[j].Read? && requests[k].Read? && requests[j].index == requests[k].index
    ensures var r := Answers(files, busy, p, requests); var i := requests[j].index;
      Renderings(requests[..j], r.1[..j], i) < Renderings(requests[..k], r.1[..k], i)
  {
    var r := Answers(files, busy, p, requests);
    RenderingsGrow(requests[..k], r.1[..k], j, requests[j].index);
    assert requests[..k][..j] == requests[..j] && r.1[..k][..j] == r.1[..j];
  }

  // ---- What a hit shows -------------------------------------------------------------------

  ghost predicate DistinctNumbers(files: seq<Source>)
  {
    forall i, j :: 0 <= i < j < |files| ==> files[i].number != files[j].number
  }

  /** The outcome leaves the cache as it is. */
  predicate KeepsCache(outcome: Outcome)
  {
    outcome.FromCache? || outcome.Refused?
  }

  /** Request `j` put this view into the cache, and none since has changed it. */
  ghost predicate LastView(files: seq<Source>, requests: seq<Request>, outcomes: seq<Outcome>, j: nat, cached: Cached)
    requires |requests| == |outcomes|
  {
    && j < |requests| && requests[j].Read? && requests[j].index < |files|
    && files[requests[j].index].number == cached.number && requests[j].family == cached.family
    && outcomes[j] == Rendered(cached.view)
    && forall m :: j < m < |requests| ==> KeepsCache(outcomes[m])
  }

  lemma {:induction false} CacheHoldsLastView(files: seq<Source>, busy: bool, p: Progress, requests: seq<Request>)
    returns (j: nat)
    requires |p.counters| == |files| && AllProper(files, requests) && p.cached.None?
    requires Answers(files, busy, p, requests).0.cached.Some?
    ensures var r := Answers(files, busy, p, requests);
      LastView(files, requests, r.1, j, r.0.cached.value)
  {
    hide CanShow, ViewAt, IsCard, Padded;
    var last := |requests| - 1;
    var before := Answers(files, busy, p, requests[..last]);
    var r := Answers(files, busy, p, requests);
    assert r.1 == before.1 + [r.1[last]];
    if r.1[last].Rendered? {
      j := last;
    } else {
      j := CacheHoldsLastView(files, busy, p, requests[..last]);
      assert requests[j] == requests[..last][j] && r.1[j] == before.1[j];
      assert forall m :: j < m < last ==> r.1[m] == before.1[m];
    }
  }

  lemma {:induction false} NoNewView(requests: seq<Request>, outcomes: seq<Outcome>, j: nat, i: nat)
    requires |requests| == |outcomes| && j <= |requests|
    requires forall m :: j <= m < |requests| ==> KeepsCache(outcomes[m])
    ensures Renderings(requests[..j], outcomes[..j], i) == Renderings(requests, outcomes, i)
  {
    if j == |requests| {
      assert requests[..j] == requests && outcomes[..j] == outcomes;
    } else {
      var last := |requests| - 1;
      NoNewView(requests[..last], outcomes[..last], j, i);
      assert requests[..last][..j] == requests[..j] && outcomes[..last][..j] == outcomes[..j];
    }
  }

  lemma AnswerHit(files: seq<Source>, busy: bool, p: Progress, q: Request)
    requires |p.counters| == |files| && Proper(files, q) && Answer(files, busy, p, q).1.FromCache?
    ensures q.Read? && q.index < |files| && p.cached.Some?
    ensures p.cached.value == Cached(files[q.index].number, q.family, Answer(files, busy, p, q).1.view)
  {
    hide CanShow, ViewAt, IsCard, Padded;
  }

  /** A read answered from the cache shows the last new view of its file, asked for by the
      same family of commands, and with the counter the file still has. */
  lemma HitShowsLastView(files: seq<Source>, busy: bool, p: Progress, requests: seq<Request>, k: nat) returns (j: nat)
    requires |p.counters| == |files| && AllProper(files, requests) && p.cached.None? && DistinctNumbers(files)
    requires k < |requests| && Answers(files, busy, p, requests).1[k].FromCache?
    ensures requests[k].Read? && requests[k].index < |files|
    ensures var outcomes := Answers(files, busy, p, requests).1;
      && j < k && requests[j].Read? && requests[j].index == requests[k].index && requests[j].family == requests[k].family
      && outcomes[j] == Rendered(outcomes[k].view)
      && (forall m :: j < m < k ==> KeepsCache(outcomes[m]))
    ensures var now := Answers(files, busy, p, requests[..k]).0.counters[requests[k].index];
      now > 0 && IsNewView(files, now - 1, requests[j], Answers(files, busy, p, requests).1[j])
  {
    hide Answer, IsNewView, Proper, Renderings;
    var r := Answers(files, busy, p, requests);
    var before := Answers(files, busy, p, requests[..k]);
    AnswersPrefix(files, busy, p, requests, k);
    AnswerHit(files, busy, before.0, requests[k]);
    var i := requests[k].index;
    j := CacheHoldsLastView(files, busy, p, requests[..k]);
    assert requests[j] == requests[..k][j] && r.1[j] == r.1[..k][j];
    assert forall m :: j < m < k ==> r.1[m] == r.1[..k][m];
    CountersCount(files, busy, p, requests[..k], i);
    RenderedWithItsCounter(files, busy, p, requests, j);
    OneMore(requests[..k], r.1[..k], j, i);
    assert requests[..k][..j] == requests[..j] && r.1[..k][..j] == r.1[..j];
  }

  lemma OneMore(requests: seq<Request>, outcomes: seq<Outcome>, j: nat, i: nat)
    requires |requests| == |outcomes| && j < |requests|
    requires requests[j].Read? && requests[j].index == i && outcomes[j].Rendered?
    requires forall m :: j < m < |requests| ==> KeepsCache(outcomes[m])
    ensures Renderings(requests, outcomes, i) == Renderings(requests[..j], outcomes[..j], i) + 1
  {
    NoNewView(requests, outcomes, j + 1, i);
    assert requests[..j + 1][..j] == requests[..j] && outcomes[..j + 1][..j] == outcomes[..j];
  }

  // ---- The run on the buffers -------------------------------------------------------------

  ghost function SourceOf(f: SdmFile): Source
    reads f
  {
    Source(f.number, f.settings, f.data)
  }

  ghost function Sources(files: seq<SdmFile>): (s: seq<Source>)
    reads files
    ensures |s| == |files| && forall i :: 0 <= i < |files| ==> s[i] == SourceOf(files[i])
  {
    seq(|files|, i requires 0 <= i < |files| reads files => SourceOf(files[i]))
  }

  ghost function Counters(files: seq<SdmFile>): (s: seq<nat>)
    reads files
    ensures |s| == |files| && forall i :: 0 <= i < |files| ==> s[i] == files[i].counter
  {
    seq(|files|, i requires 0 <= i < |files| reads files => files[i].counter)
  }

  ghost function CacheOf(r: Reader): Option<Cached>
    reads r, r.cache
    requires r.Valid()
  {
    if r.tags.valid then Some(Cached(r.tags.number, r.tags.family, r.cache[..r.tags.length])) else None
  }

  ghost predicate Separate(files: seq<SdmFile>)
  {
    forall i, j :: 0 <= i < j < |files| ==> files[i] != files[j]
  }

  /** One request. */
  method Serve(r: Reader, files: seq<SdmFile>, q: Request) returns (outcome: Outcome)
    requires r.Valid() && Separate(files) && Proper(Sources(files), q)
    modifies r`tags, r.cache, r.chain, files
    ensures r.Valid() && Sources(files) == old(Sources(files)) && r.Busy() == old(r.Busy())
    ensures (Progress(Counters(files), CacheOf(r)), outcome)
         == Answer(old(Sources(files)), old(r.Busy()), old(Progress(Counters(files), CacheOf(r))), q)
  {
    hide IsCard, CanRender, View, Padded, LacksRandom, NothingLeft;
    match q
    case RetireCache =>
      r.Retire();
      return Retired;
    case Read(card, i, family, padding) =>
      var file := files[i];
      var hit := r.Hit(file, family);
      var status := r.Render(card, file, family, padding);
      if status != Done {
        return Refused;
      } else if hit {
        return FromCache(r.cache[..r.tags.length]);
      } else {
        ghost var was := old(Counters(files));
        assert Counters(files) == was[i := was[i] + 1] by {
          assert forall j :: 0 <= j < |files| && j != i ==> files[j] != file;
        }
        return Rendered(r.cache[..|file.data|]);
      }
  }

  /** Any run of reads answers as specified: every counter counts exactly the reads that
      rendered a new view of its file and passes neither its limit nor its width. */
  method ReadMany(r: Reader, files: seq<SdmFile>, requests: seq<Request>) returns (outcomes: seq<Outcome>)
    requires r.Valid() && Separate(files) && AllProper(Sources(files), requests)
    modifies r`tags, r.cache, r.chain, files
    ensures r.Valid() && Sources(files) == old(Sources(files)) && |outcomes| == |requests|
    ensures (Progress(Counters(files), CacheOf(r)), outcomes)
         == Answers(old(Sources(files)), old(r.Busy()), old(Progress(Counters(files), CacheOf(r))), requests)
    ensures forall i :: 0 <= i < |files| ==>
      && files[i].counter == old(files[i].counter) + Renderings(requests, outcomes, i)
      && (old(files[i].counter) <= 0xFFFFFF ==> files[i].counter <= 0xFFFFFF)
      && (files[i].settings.limit.Some? && old(files[i].counter) <= files[i].settings.limit.value ==>
            files[i].counter <= files[i].settings.limit.value)
  {
    hide IsCard, Answer, CanShow, Separate, Sources, Counters;
    ghost var sources, start := Sources(files), Progress(Counters(files), CacheOf(r));
    outcomes := [];
    for k := 0 to |requests|
      invariant r.Valid() && Sources(files) == sources && r.Busy() == old(r.Busy())
      invariant (Progress(Counters(files), CacheOf(r)), outcomes) == Answers(sources, r.Busy(), start, requests[..k])
    {
      var outcome := Serve(r, files, requests[k]);
      assert requests[..k + 1][..k] == requests[..k];
      outcomes := outcomes + [outcome];
    }
    assert requests[..|requests|] == requests;
    forall i | 0 <= i < |files|
      ensures files[i].counter == old(files[i].counter) + Renderings(requests, outcomes, i)
      ensures old(files[i].counter) <= 0xFFFFFF ==> files[i].counter <= 0xFFFFFF
      ensures files[i].settings.limit.Some? && old(files[i].counter) <= files[i].settings.limit.value ==>
        files[i].counter <= files[i].settings.limit.value
    {
      CountersCount(sources, r.Busy(), start, requests, i);
      CountersBounded(sources, r.Busy(), start, requests, i);
    }
  }
}
