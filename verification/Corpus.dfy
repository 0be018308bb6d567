/** The corpus generator of bench/contradiction_longitudinal_claude.py; each draw is any choice in range. */
module Corpus {
  import opened Dicts

  datatype Flip = Flip(topic: string, original: string, correction: string, goldAfter: string, goldBefore: string)

  /** f"s{index:05d}-{seed}" */
  datatype SessionId = SessionId(index: nat, seed: int)

  datatype Entry = Entry(
    session: SessionId, role: string, text: string, isFlipOriginal: bool, isFlipCorrection: bool, topic: string)

  datatype Condition = PostFlip | HistoricalVerbatim

  /** Probe ids are made of the condition, the position among its probes, and the seed. */
  datatype ProbeId = ProbeId(condition: Condition, index: nat, seed: int)

  datatype Probe = Probe(id: ProbeId, cue: string, expects: string, condition: Condition, topic: string)

  datatype Meta = Meta(
    origSession: SessionId, corrSession: SessionId, goldBefore: string, goldAfter: string,
    originalText: string, correctionText: string)

  /** Where a flip's two entries stand. */
  datatype Span = Span(original: nat, correction: nat)

  function Min(a: int, b: int): int {
    if a <= b then a else b
  }

  function Max(a: int, b: int): int {
    if a >= b then a else b
  }

  /** How many flips are sampled. */
  function FlipBudget(table: seq<Flip>, nSessions: int): nat {
    Max(Min(|table|, nSessions / 4), 1)
  }

  function FillerEntry(index: nat, seed: int, text: string): Entry {
    Entry(SessionId(index, seed), "user", text, false, false, "")
  }

  function OriginalEntry(index: nat, seed: int, f: Flip): Entry {
    Entry(SessionId(index, seed), "user", f.original, true, false, f.topic)
  }

  function CorrectionEntry(index: nat, seed: int, f: Flip): Entry {
    Entry(SessionId(index, seed), "user", f.correction, false, true, f.topic)
  }

  ghost predicate DistinctTopics(flips: seq<Flip>) {
    forall i, j :: 0 <= i < j < |flips| ==> flips[i].topic != flips[j].topic
  }

  ghost predicate IsFiller(e: Entry, index: nat, seed: int, fillers: seq<string>) {
    e.text in fillers && e == FillerEntry(index, seed, e.text)
  }

  /** The spans follow one another and each puts the original first. */
  ghost predicate Ordered(at: seq<Span>, n: nat) {
    && (forall k :: 0 <= k < |at| ==> at[k].original < at[k].correction < n)
    && (forall k, l :: 0 <= k < l < |at| ==> at[k].correction < at[l].original)
  }

  /** Entry i is the original or the correction of a placed flip, or filler. */
  ghost predicate Explained(e: Entry, i: nat, flips: seq<Flip>, at: seq<Span>, seed: int, fillers: seq<string>) {
    || IsFiller(e, i, seed, fillers)
    || (exists k :: 0 <= k < |at| && k < |flips| && at[k].original == i && e == OriginalEntry(i, seed, flips[k]))
    || (exists k :: 0 <= k < |at| && k < |flips| && at[k].correction == i && e == CorrectionEntry(i, seed, flips[k]))
  }

  /** The entries hold both sides of every placed flip, in order, and otherwise only filler. */
  ghost predicate Layout(entries: seq<Entry>, flips: seq<Flip>, at: seq<Span>, seed: int, fillers: seq<string>) {
    && |at| == |flips|
    && Ordered(at, |entries|)
    && (forall k :: 0 <= k < |at| ==> BothSides(entries, flips[k], at[k], seed))
    && (forall i :: 0 <= i < |entries| ==> Explained(entries[i], i, flips, at, seed, fillers))
  }

  ghost predicate BothSides(entries: seq<Entry>, f: Flip, span: Span, seed: int) {
    && span.original < span.correction < |entries|
    && entries[span.original] == OriginalEntry(span.original, seed, f)
    && entries[span.correction] == CorrectionEntry(span.correction, seed, f)
  }

  function MetaOf(f: Flip, span: Span, seed: int): Meta {
    Meta(SessionId(span.original, seed), SessionId(span.correction, seed), f.goldBefore, f.goldAfter,
         f.original, f.correction)
  }

  ghost predicate Recorded(meta: Dict<string, Meta>, flips: seq<Flip>, at: seq<Span>, seed: int) {
    && Wf(meta)
    && |at| == |flips| == |meta.keys|
    && forall k :: 0 <= k < |flips| ==>
         && meta.keys[k] == flips[k].topic
         && flips[k].topic in meta.at
         && meta.at[flips[k].topic] == MetaOf(flips[k], at[k], seed)
  }

  /** What a probe for one of the placed flips must say. */
  ghost predicate Probes(
    p: Probe, condition: Condition, index: nat, f: Flip, seed: int, cueFor: (Condition, string) -> string) {
    p == Probe(ProbeId(condition, index, seed), cueFor(condition, f.topic),
               if condition.PostFlip? then f.goldAfter else f.goldBefore, condition, f.topic)
  }

  ghost predicate ProbesSome(
    p: Probe, condition: Condition, index: nat, flips: seq<Flip>, seed: int, cueFor: (Condition, string) -> string) {
    exists k :: 0 <= k < |flips| && Probes(p, condition, index, flips[k], seed, cueFor)
  }

  /** `more` is `entries` followed by `count` filler entries. */
  ghost predicate FillerAdded(entries: seq<Entry>, more: seq<Entry>, count: int, seed: int, fillers: seq<string>) {
    && count >= 0
    && |more| == |entries| + count
    && (forall i :: 0 <= i < |entries| ==> more[i] == entries[i])
    && forall i :: |entries| <= i < |more| ==> IsFiller(more[i], i, seed, fillers)
  }

  // ---- generate_corpus ----

  method AddFiller(entries: seq<Entry>, count: nat, seed: int, fillers: seq<string>) returns (more: seq<Entry>)
    requires fillers != []
    ensures FillerAdded(entries, more, count, seed, fillers) && |more| == |entries| + count
  {
    more := entries;
    for i := 0 to count
      invariant FillerAdded(entries, more, i, seed, fillers)
    {
      assert fillers[0] in fillers;
      var text :| text in fillers;
      more := more + [FillerEntry(|more|, seed, text)];
    }
  }

  /** `count` different positions below n. */
  predicate IsDraw(picks: seq<nat>, count: nat, n: nat) {
    && |picks| == count
    && (forall k :: 0 <= k < count ==> picks[k] < n)
    && (forall i, j :: 0 <= i < j < count ==> picks[i] != picks[j])
  }

  /** random.sample: any choice of `count` different positions. */
  method Sample(table: seq<Flip>, count: nat) returns (flips: seq<Flip>)
    requires count <= |table| && DistinctTopics(table)
    ensures |flips| == count && DistinctTopics(flips)
    ensures forall k :: 0 <= k < count ==> flips[k] in table
  {
    assert IsDraw(seq(count, i => i), count, |table|);
    var picks: seq<nat> :| IsDraw(picks, count, |table|);
    flips := Picked(table, picks, count);
  }

  function Picked(table: seq<Flip>, picks: seq<nat>, count: nat): (flips: seq<Flip>)
    requires IsDraw(picks, count, |table|)
    ensures |flips| == count && forall k :: 0 <= k < count ==> flips[k] in table
    ensures DistinctTopics(table) ==> DistinctTopics(flips)
  {
    seq(count, i requires 0 <= i < count => table[picks[i]])
  }

  /** How many filler sentences a draw makes, when `room` entries besides can be had. */
  function FillerCount(drawn: nat, room: int): (c: nat)
    ensures c <= drawn
    ensures room >= drawn ==> c == drawn
    ensures 0 <= room < drawn ==> c == room
  {
    Max(0, Min(drawn, room))
  }

  /** One round of the flip loop, with room for at least the flip's two entries.  Before
      the original come as many sentences as drawn, but not so many that the two would
      not fit; between it and the correction as many as drawn, but not so many that the
      correction would not fit. */
  method PlaceFlip(entries: seq<Entry>, f: Flip, nSessions: int, seed: int, fillers: seq<string>,
                   before: nat, between: nat, ghost flips: seq<Flip>, ghost at: seq<Span>)
    returns (more: seq<Entry>, span: Span)
    requires fillers != [] && |entries| + 2 <= nSessions
    requires Layout(entries, flips, at, seed, fillers)
    ensures Layout(more, flips + [f], at + [span], seed, fillers)
    ensures span.original == |entries| + FillerCount(before, nSessions - |entries| - 2)
    ensures span.correction == span.original + 1 + FillerCount(between, nSessions - span.original - 2)
    ensures |more| == span.correction + 1 <= nSessions
  {
    var start := AddFiller(entries, FillerCount(before, nSessions - |entries| - 2), seed, fillers);
    var withOriginal := start + [OriginalEntry(|start|, seed, f)];
    var middle := AddFiller(withOriginal, FillerCount(between, nSessions - |withOriginal| - 1), seed, fillers);
    more := middle + [CorrectionEntry(|middle|, seed, f)];
    span := Span(|start|, |middle|);
    LayoutFlip(entries, start, middle, flips, at, f, seed, fillers);
  }

  lemma {:induction false} LayoutFlip(
    entries: seq<Entry>, before: seq<Entry>, between: seq<Entry>, flips: seq<Flip>, at: seq<Span>,
    f: Flip, seed: int, fillers: seq<string>)
    requires Layout(entries, flips, at, seed, fillers)
    requires FillerAdded(entries, before, |before| - |entries|, seed, fillers)
    requires FillerAdded(before + [OriginalEntry(|before|, seed, f)], between, |between| - |before| - 1, seed, fillers)
    ensures var more := between + [CorrectionEntry(|between|, seed, f)];
            Layout(more, flips + [f], at + [Span(|before|, |between|)], seed, fillers)
  {
    var more, span := between + [CorrectionEntry(|between|, seed, f)], Span(|before|, |between|);
    SidesKept(entries, more, flips, at, f, span, seed);
    forall i | 0 <= i < |more|
      ensures Explained(more[i], i, flips + [f], at + [span], seed, fillers)
    {
      if i < |entries| {
        assert more[i] == entries[i];
        ExplainedStill(entries[i], i, flips, at, f, span, seed, fillers);
      } else if i == |before| || i == |between| {
        ExplainedNow(more[i], i, flips, at, f, span, seed, fillers);
      } else {
        assert IsFiller(more[i], i, seed, fillers);
      }
    }
  }

  lemma {:induction false} SidesKept(
    entries: seq<Entry>, more: seq<Entry>, flips: seq<Flip>, at: seq<Span>, f: Flip, span: Span, seed: int)
    requires |at| == |flips| && |entries| <= |more| && forall i :: 0 <= i < |entries| ==> more[i] == entries[i]
    requires forall k :: 0 <= k < |at| ==> BothSides(entries, flips[k], at[k], seed)
    requires BothSides(more, f, span, seed)
    ensures forall k :: 0 <= k < |at| + 1 ==> BothSides(more, (flips + [f])[k], (at + [span])[k], seed)
  {
  }

  lemma {:induction false} ExplainedStill(
    e: Entry, i: nat, flips: seq<Flip>, at: seq<Span>, f: Flip, span: Span, seed: int, fillers: seq<string>)
    requires |at| == |flips| && Explained(e, i, flips, at, seed, fillers)
    ensures Explained(e, i, flips + [f], at + [span], seed, fillers)
  {
    if !IsFiller(e, i, seed, fillers) {
      var k :| 0 <= k < |at| && ((at[k].original == i && e == OriginalEntry(i, seed, flips[k]))
                                 || (at[k].correction == i && e == CorrectionEntry(i, seed, flips[k])));
      assert (flips + [f])[k] == flips[k] && (at + [span])[k] == at[k];
    }
  }

  lemma {:induction false} ExplainedNow(
    e: Entry, i: nat, flips: seq<Flip>, at: seq<Span>, f: Flip, span: Span, seed: int, fillers: seq<string>)
    requires |at| == |flips|
    requires || (i == span.original && e == OriginalEntry(i, seed, f))
             || (i == span.correction && e == CorrectionEntry(i, seed, f))
    ensures Explained(e, i, flips + [f], at + [span], seed, fillers)
  {
    assert (flips + [f])[|at|] == f && (at + [span])[|at|] == span;
  }

  method GenerateCorpus(
    table: seq<Flip>, fillers: seq<string>, cueFor: (Condition, string) -> string,
    seed: int, nSessions: int, nProbesPre: int, nProbesPost: int)
    returns (entries: seq<Entry>, probes: seq<Probe>, ghost flips: seq<Flip>, ghost at: seq<Span>)
    requires table != [] && fillers != [] && DistinctTopics(table)
    ensures |entries| == if nSessions < 0 then 0 else nSessions
    ensures Layout(entries, flips, at, seed, fillers)
    ensures DistinctTopics(flips) && forall k :: 0 <= k < |flips| ==> flips[k] in table
    ensures |flips| <= FlipBudget(table, nSessions)
    ensures |flips| < FlipBudget(table, nSessions) ==> nSessions <= 7 * |flips| + 1
    ensures nSessions < 2 <==> flips == []
    ensures flips == [] ==> probes == []
    ensures flips != [] ==>
              |probes| == (if nProbesPost < 0 then 0 else nProbesPost) + if nProbesPre < 0 then 0 else nProbesPre
    ensures forall i :: 0 <= i < |probes| && i < nProbesPost ==> ProbesSome(probes[i], PostFlip, i, flips, seed, cueFor)
    ensures forall i :: 0 <= i < |probes| && i >= nProbesPost ==>
              ProbesSome(probes[i], HistoricalVerbatim, if nProbesPost < 0 then i else i - nProbesPost,
                         flips, seed, cueFor)
  {
    hide Layout;
    hide Recorded;
    hide FillerAdded;
    hide ProbesSome;
    hide DistinctTopics;
    var flipMetadata: Dict<string, Meta>;
    entries, flipMetadata, flips, at := PlaceFlips(table, fillers, seed, nSessions);
    ghost var placed := entries;
    entries := AddFiller(entries, Max(0, nSessions - |entries|), seed, fillers);
    LayoutFiller(placed, entries, flips, at, seed, fillers);
    probes := [];
    if flipMetadata.keys == [] {
      return;
    }
    var post := MakeProbes(PostFlip, Max(nProbesPost, 0), flipMetadata, cueFor, seed, flips, at);
    var historical := MakeProbes(HistoricalVerbatim, Max(nProbesPre, 0), flipMetadata, cueFor, seed, flips, at);
    probes := post + historical;
  }

  /** The flip loop. */
  method PlaceFlips(table: seq<Flip>, fillers: seq<string>, seed: int, nSessions: int)
    returns (entries: seq<Entry>, flipMetadata: Dict<string, Meta>, ghost flips: seq<Flip>, ghost at: seq<Span>)
    requires table != [] && fillers != [] && DistinctTopics(table)
    ensures |entries| <= Max(nSessions, 0)
    ensures Layout(entries, flips, at, seed, fillers)
    ensures Recorded(flipMetadata, flips, at, seed) && |flipMetadata.keys| == |flips|
    ensures DistinctTopics(flips) && forall k :: 0 <= k < |flips| ==> flips[k] in table
    ensures |flips| <= FlipBudget(table, nSessions)
    ensures |flips| < FlipBudget(table, nSessions) ==> nSessions <= 7 * |flips| + 1
    ensures nSessions < 2 <==> flips == []
  {
    hide Layout;
    hide Recorded;
    var sampled := Sample(table, FlipBudget(table, nSessions));
    entries, flips, at := [], [], [];
    flipMetadata := Dicts.Empty();
    NothingPlaced(seed, fillers);
    for p := 0 to |sampled|
      invariant flips == sampled[..p]
      invariant |entries| <= Max(nSessions, 0) && |entries| <= 7 * p && (p > 0 ==> nSessions >= 2)
      invariant Layout(entries, flips, at, seed, fillers)
      invariant Recorded(flipMetadata, flips, at, seed) && |flipMetadata.keys| == |flips|
    {
      if nSessions - |entries| < 2 {
        break;
      }
      var f, span := sampled[p], Span(0, 0);
      var before: nat, between: nat :| before <= 3 && between <= 2;
      entries, span := PlaceFlip(entries, f, nSessions, seed, fillers, before, between, flips, at);
      RecordedSnoc(flipMetadata, flips, at, f, span, seed);
      flips, at := flips + [f], at + [span];
      flipMetadata := Put(flipMetadata, f.topic, MetaOf(f, span, seed));
    }
  }

  lemma {:induction false} NothingPlaced(seed: int, fillers: seq<string>)
    ensures Layout([], [], [], seed, fillers) && Recorded(Dicts.Empty(), [], [], seed)
  {
  }

  /** The probes of one condition, each about a topic chosen at random. */
  method MakeProbes(condition: Condition, count: nat, meta: Dict<string, Meta>,
                    cueFor: (Condition, string) -> string, seed: int, ghost flips: seq<Flip>, ghost at: seq<Span>)
    returns (probes: seq<Probe>)
    requires Recorded(meta, flips, at, seed) && meta.keys != []
    ensures |probes| == count
    ensures forall i :: 0 <= i < count ==> ProbesSome(probes[i], condition, i, flips, seed, cueFor)
  {
    probes := [];
    for i := 0 to count
      invariant |probes| == i
      invariant forall j :: 0 <= j < i ==> ProbesSome(probes[j], condition, j, flips, seed, cueFor)
    {
      assert meta.keys[0] in meta.keys;
      var topic :| topic in meta.keys;
      var m := meta.at[topic];
      var expects := if condition.PostFlip? then m.goldAfter else m.goldBefore;
      var probe := Probe(ProbeId(condition, i, seed), cueFor(condition, topic), expects, condition, topic);
      ghost var k :| 0 <= k < |meta.keys| && meta.keys[k] == topic;
      assert Probes(probe, condition, i, flips[k], seed, cueFor);
      probes := probes + [probe];
    }
  }

  lemma {:induction false} RecordedSnoc(
    meta: Dict<string, Meta>, flips: seq<Flip>, at: seq<Span>, f: Flip, span: Span, seed: int)
    requires Recorded(meta, flips, at, seed) && forall k :: 0 <= k < |flips| ==> flips[k].topic != f.topic
    ensures Recorded(Put(meta, f.topic, MetaOf(f, span, seed)), flips + [f], at + [span], seed)
    ensures |Put(meta, f.topic, MetaOf(f, span, seed)).keys| == |flips| + 1
  {
    assert f.topic !in meta.keys;
    var more := Put(meta, f.topic, MetaOf(f, span, seed));
    assert more.keys == meta.keys + [f.topic];
    hide Put;
  }

  lemma {:induction false} LayoutFiller(
    entries: seq<Entry>, more: seq<Entry>, flips: seq<Flip>, at: seq<Span>, seed: int, fillers: seq<string>)
    requires Layout(entries, flips, at, seed, fillers)
    requires FillerAdded(entries, more, |more| - |entries|, seed, fillers)
    ensures Layout(more, flips, at, seed, fillers)
  {
    forall k | 0 <= k < |at|
      ensures BothSides(more, flips[k], at[k], seed)
    {
      assert BothSides(entries, flips[k], at[k], seed);
    }
    forall i | 0 <= i < |more|
      ensures Explained(more[i], i, flips, at, seed, fillers)
    {
      if i < |entries| {
        assert Explained(entries[i], i, flips, at, seed, fillers) && more[i] == entries[i];
      } else {
        assert IsFiller(more[i], i, seed, fillers);
      }
    }
  }

  // ---- What the layout means ----

  /** The i-th entry carries session index i. */
  lemma {:induction false} SessionsNumbered(
    entries: seq<Entry>, flips: seq<Flip>, at: seq<Span>, seed: int, fillers: seq<string>, i: nat)
    requires Layout(entries, flips, at, seed, fillers) && i < |entries|
    ensures entries[i].session == SessionId(i, seed) && entries[i].role == "user"
  {
    assert Explained(entries[i], i, flips, at, seed, fillers);
  }

  /** No original without its correction, and the correction comes strictly later
      (and the other way round: no correction without an earlier original). */
  lemma {:induction false} NoOrphans(
    entries: seq<Entry>, flips: seq<Flip>, at: seq<Span>, seed: int, fillers: seq<string>, i: nat)
    requires Layout(entries, flips, at, seed, fillers) && i < |entries|
    ensures entries[i].isFlipOriginal ==>
              exists j :: i < j < |entries| && entries[j].isFlipCorrection && entries[j].topic == entries[i].topic
    ensures entries[i].isFlipCorrection ==>
              exists j :: 0 <= j < i && entries[j].isFlipOriginal && entries[j].topic == entries[i].topic
    ensures !(entries[i].isFlipOriginal && entries[i].isFlipCorrection)
  {
    assert Explained(entries[i], i, flips, at, seed, fillers);
    if entries[i].isFlipOriginal {
      var k :| 0 <= k < |at| && at[k].original == i && entries[i] == OriginalEntry(i, seed, flips[k]);
      assert BothSides(entries, flips[k], at[k], seed);
    } else if entries[i].isFlipCorrection {
      var k :| 0 <= k < |at| && at[k].correction == i && entries[i] == CorrectionEntry(i, seed, flips[k]);
      assert BothSides(entries, flips[k], at[k], seed);
    }
  }

  /** A topic is announced once and corrected once. */
  lemma {:induction false} OncePerTopic(
    entries: seq<Entry>, flips: seq<Flip>, at: seq<Span>, seed: int, fillers: seq<string>, i: nat, j: nat)
    requires Layout(entries, flips, at, seed, fillers) && DistinctTopics(flips)
    requires i < |entries| && j < |entries| && entries[i].topic == entries[j].topic
    ensures entries[i].isFlipOriginal && entries[j].isFlipOriginal ==> i == j
    ensures entries[i].isFlipCorrection && entries[j].isFlipCorrection ==> i == j
  {
    assert Explained(entries[i], i, flips, at, seed, fillers);
    assert Explained(entries[j], j, flips, at, seed, fillers);
  }

  /** How many flips are sampled: at least one, at most all of them, and otherwise one
      for every four sessions. */
  lemma {:induction false} FlipBudgetMeaning(table: seq<Flip>, nSessions: int, b: nat)
    requires table != [] && b == FlipBudget(table, nSessions)
    ensures 1 <= b <= |table|
    ensures b > 1 ==> 4 * b <= nSessions
    ensures b < |table| ==> nSessions < 4 * (b + 1)
  {
  }

  /** A placed flip's entries say its two texts, under its topic, and are marked as what they are. */
  lemma {:induction false} FlipEntries(
    entries: seq<Entry>, flips: seq<Flip>, at: seq<Span>, seed: int, fillers: seq<string>, k: nat)
    requires Layout(entries, flips, at, seed, fillers) && k < |flips|
    ensures at[k].original < at[k].correction < |entries|
    ensures var o, c := entries[at[k].original], entries[at[k].correction];
            && o.text == flips[k].original && c.text == flips[k].correction
            && o.topic == c.topic == flips[k].topic
            && o.isFlipOriginal && !o.isFlipCorrection && c.isFlipCorrection && !c.isFlipOriginal
  {
    assert BothSides(entries, flips[k], at[k], seed);
  }

  /** Every other entry is one of the filler sentences and has no topic. */
  lemma {:induction false} FillerEntries(
    entries: seq<Entry>, flips: seq<Flip>, at: seq<Span>, seed: int, fillers: seq<string>, i: nat)
    requires Layout(entries, flips, at, seed, fillers) && i < |entries|
    requires forall k :: 0 <= k < |at| ==> at[k].original != i && at[k].correction != i
    ensures var e := entries[i];
            e.text in fillers && e.topic == "" && !e.isFlipOriginal && !e.isFlipCorrection
  {
    assert Explained(entries[i], i, flips, at, seed, fillers);
  }

  /** Whatever flip a probe is about, the corpus holds its original and later its
      correction, and the probe asks for the corrected value after the flip and for the
      original one for history, with the cue of its condition and topic. */
  lemma {:induction false} ProbesAnswerable(
    entries: seq<Entry>, flips: seq<Flip>, at: seq<Span>, seed: int, fillers: seq<string>,
    p: Probe, condition: Condition, index: nat, cueFor: (Condition, string) -> string) returns (k: nat)
    requires Layout(entries, flips, at, seed, fillers)
    requires ProbesSome(p, condition, index, flips, seed, cueFor)
    ensures p.condition == condition && p.id == ProbeId(condition, index, seed) && p.cue == cueFor(condition, p.topic)
    ensures k < |flips| && p.topic == flips[k].topic
    ensures condition == PostFlip ==> p.expects == flips[k].goldAfter
    ensures condition == HistoricalVerbatim ==> p.expects == flips[k].goldBefore
    ensures at[k].original < at[k].correction < |entries|
    ensures entries[at[k].original].text == flips[k].original && entries[at[k].correction].text == flips[k].correction
    ensures entries[at[k].original].topic == entries[at[k].correction].topic == p.topic
  {
    k :| k < |flips| && Probes(p, condition, index, flips[k], seed, cueFor);
    FlipEntries(entries, flips, at, seed, fillers, k);
  }
}
