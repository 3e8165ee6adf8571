/** Rank fusion: candidates of several retrieval channels are grouped by the reference they commit to and scored by
    the ranks they were observed at. */
module RankFusion {
  import opened Wrappers
  import opened Ordering

  datatype Reference = Reference(
    eventId: int, chunkId: int, sourceRevision: int, startChar: int, endChar: int,
    payloadSha256: string, chainHash: string, chunkSha256: string, chunkOrdinal: int,
    sourceHash: Option<string>, sourceCreatedAt: Option<string>)

  type Rank = n: int | 0 < n witness 1

  datatype Evidence = Evidence(channel: string, channelRank: Rank, rawScore: real)

  datatype Candidate = Candidate(
    reference: Reference, score: real, provider: string, quote: string, channelEvidence: seq<Evidence>)

  // ----- configuration

  datatype Config = Config(rankBase: real, channelWeights: seq<(string, real)>) {
    ghost predicate Valid() {
      && rankBase > 0.0
      && (forall i :: 0 <= i < |channelWeights| ==> channelWeights[i].1 >= 0.0)
      && (forall i, j :: 0 <= i < j < |channelWeights| ==> channelWeights[i].0 != channelWeights[j].0)
    }

    ghost predicate Configured(channel: string) {
      exists i :: 0 <= i < |channelWeights| && channelWeights[i].0 == channel
    }

    ghost function Weight(channel: string): (w: real)
      requires Valid()
      ensures w >= 0.0
    {
      if Configured(channel) then
        var i :| 0 <= i < |channelWeights| && channelWeights[i].0 == channel;
        channelWeights[i].1
      else 1.0
    }

    method WeightFor(channel: string) returns (w: real)
      requires Valid()
      ensures w == Weight(channel)
    {
      for i := 0 to |channelWeights|
        invariant forall j :: 0 <= j < i ==> channelWeights[j].0 != channel
      {
        if channelWeights[i].0 == channel {
          assert Configured(channel);
          return channelWeights[i].1;
        }
      }
      return 1.0;
    }
  }

  // ----- the three orders

  function Number(n: int): seq<int> { [n] }

  function Nullable(s: Option<string>): seq<int> {
    match s
    case None => []
    case Some(t) => [1] + Chars(t)
  }

  function ReferenceKey(r: Reference): seq<seq<int>> {
    [Number(r.eventId), Number(r.chunkId), Number(r.sourceRevision), Number(r.startChar), Number(r.endChar),
     Chars(r.payloadSha256), Chars(r.chainHash), Chars(r.chunkSha256), Number(r.chunkOrdinal),
     Nullable(r.sourceHash), Nullable(r.sourceCreatedAt)]
  }

  predicate ReferenceLess(a: Reference, b: Reference) {
    TupleLess(ReferenceKey(a), ReferenceKey(b))
  }

  predicate StringLess(a: string, b: string) {
    PartLess(Chars(a), Chars(b))
  }

  predicate EvidenceLess(a: Evidence, b: Evidence) {
    || StringLess(a.channel, b.channel)
    || (a.channel == b.channel && a.channelRank < b.channelRank)
    || (a.channel == b.channel && a.channelRank == b.channelRank && a.rawScore < b.rawScore)
  }

  predicate NameLess(a: (string, string), b: (string, string)) {
    StringLess(a.0, b.0) || (a.0 == b.0 && StringLess(a.1, b.1))
  }

  /** Higher scores first; equal scores by reference. */
  predicate Before(a: Candidate, b: Candidate) {
    a.score > b.score || (a.score == b.score && ReferenceLess(a.reference, b.reference))
  }

  lemma NullableInjective(s: Option<string>, t: Option<string>)
    requires Nullable(s) == Nullable(t)
    ensures s == t
  {
    if s.Some? && t.Some? {
      assert Nullable(s)[1..] == Chars(s.value) && Nullable(t)[1..] == Chars(t.value);
      CharsInjective(s.value, t.value);
    } else {
      assert s.Some? ==> |Nullable(s)| > 0;
      assert t.Some? ==> |Nullable(t)| > 0;
    }
  }

  lemma ReferenceKeyInjective(a: Reference, b: Reference)
    requires ReferenceKey(a) == ReferenceKey(b)
    ensures a == b
  {
    hide Chars, Nullable;
    var x, y := ReferenceKey(a), ReferenceKey(b);
    assert forall i :: 0 <= i < 11 ==> x[i] == y[i];
    assert x[0] == y[0] && x[1] == y[1] && x[2] == y[2] && x[3] == y[3] && x[4] == y[4] && x[8] == y[8];
    assert Number(a.eventId)[0] == Number(b.eventId)[0] && Number(a.chunkId)[0] == Number(b.chunkId)[0];
    assert Number(a.sourceRevision)[0] == Number(b.sourceRevision)[0];
    assert Number(a.startChar)[0] == Number(b.startChar)[0] && Number(a.endChar)[0] == Number(b.endChar)[0];
    assert Number(a.chunkOrdinal)[0] == Number(b.chunkOrdinal)[0];
    assert x[5] == y[5] && x[6] == y[6] && x[7] == y[7] && x[9] == y[9] && x[10] == y[10];
    CharsInjective(a.payloadSha256, b.payloadSha256);
    CharsInjective(a.chainHash, b.chainHash);
    CharsInjective(a.chunkSha256, b.chunkSha256);
    NullableInjective(a.sourceHash, b.sourceHash);
    NullableInjective(a.sourceCreatedAt, b.sourceCreatedAt);
  }

  /** References are totally ordered by their commitment tuples. */
  lemma ReferenceLessIsOrder()
    ensures IsOrder(ReferenceLess)
  {
    TupleLessIsOrder();
    hide TupleLess, ReferenceKey;
    forall a, b ensures a == b || ReferenceLess(a, b) || ReferenceLess(b, a) {
      if ReferenceKey(a) == ReferenceKey(b) { ReferenceKeyInjective(a, b); }
    }
  }

  lemma StringLessIsOrder()
    ensures IsOrder(StringLess)
  {
    PartLessIsOrder();
    hide PartLess, Chars;
    forall a: string, b: string ensures a == b || StringLess(a, b) || StringLess(b, a) {
      if Chars(a) == Chars(b) { CharsInjective(a, b); }
    }
  }

  lemma EvidenceLessIsOrder()
    ensures IsOrder(EvidenceLess)
  {
    StringLessIsOrder();
    hide StringLess;
  }

  lemma NameLessIsOrder()
    ensures IsOrder(NameLess)
  {
    StringLessIsOrder();
    hide StringLess;
  }

  // ----- what a fused list is

  /** A candidate without channel evidence counts as one observation of its own provider. */
  function EvidenceOf(c: Candidate): seq<Evidence> {
    if c.channelEvidence == [] then [Evidence(c.provider, 1, c.score)] else c.channelEvidence
  }

  ghost function GroupEvidence(group: set<Candidate>): set<Evidence> {
    set c, e | c in group && e in EvidenceOf(c) :: e
  }

  ghost function Observations(evidence: set<Evidence>): set<(string, Rank)> {
    set e | e in evidence :: (e.channel, e.channelRank)
  }

  ghost function Channels(evidence: set<Evidence>): set<string> {
    set e | e in evidence :: e.channel
  }

  ghost function Contribution(config: Config, o: (string, Rank)): (x: real)
    requires config.Valid()
    ensures x >= 0.0
  {
    config.Weight(o.0) / (config.rankBase + o.1 as real)
  }

  ghost function Pick<T>(s: set<T>): (x: T)
    requires s != {}
    ensures x in s
  {
    var x :| x in s;
    x
  }

  ghost function RankScore(config: Config, observed: set<(string, Rank)>): real
    requires config.Valid()
  {
    if observed == {} then 0.0
    else
      var o := Pick(observed);
      Contribution(config, o) + RankScore(config, observed - {o})
  }

  ghost predicate Represents(group: set<Candidate>, c: Candidate) {
    && c in group
    && forall d :: d in group ==> !NameLess((d.provider, d.quote), (c.provider, c.quote))
  }

  const FUSION_PROVIDER: string := "soullink.rank_fusion"

  ghost predicate FusedFrom(config: Config, group: set<Candidate>, out: Candidate)
    requires config.Valid()
  {
    var evidence := GroupEvidence(group);
    && Ascending(EvidenceLess, out.channelEvidence)
    && Elements(out.channelEvidence) == evidence
    && out.score == RankScore(config, Observations(evidence))
    && exists c :: Represents(group, c) && IsNamedAfter(out, c, |Channels(evidence)| > 1)
  }

  ghost predicate IsNamedAfter(out: Candidate, c: Candidate, several: bool) {
    && out.reference == c.reference
    && out.quote == c.quote
    && out.provider == if several then FUSION_PROVIDER else c.provider
  }

  ghost function Group(cs: seq<Candidate>, r: Reference): set<Candidate> {
    set c | c in cs && c.reference == r
  }

  ghost function References(cs: seq<Candidate>): set<Reference> {
    set c | c in cs :: c.reference
  }

  ghost predicate IsFusion(config: Config, cs: seq<Candidate>, fused: seq<Candidate>)
    requires config.Valid()
  {
    && References(fused) == References(cs)
    && (forall out :: out in fused ==> FusedFrom(config, Group(cs, out.reference), out))
    && Ascending(Before, fused)
  }

  // ----- the score is a sum over a set

  lemma {:induction false} RankScoreAdds(config: Config, observed: set<(string, Rank)>, o: (string, Rank))
    requires config.Valid() && o !in observed
    ensures RankScore(config, observed + {o}) == Contribution(config, o) + RankScore(config, observed)
    decreases observed
  {
    hide Contribution;
    var all := observed + {o};
    var first := Pick(all);
    if first == o {
      assert all - {o} == observed;
    } else {
      var rest := observed - {first};
      assert all - {first} == rest + {o};
      RankScoreAdds(config, rest, o);
      RankScoreAdds(config, rest, first);
      assert rest + {first} == observed;
    }
  }

  lemma {:induction false} RankScoreGrows(config: Config, observed: set<(string, Rank)>, more: set<(string, Rank)>)
    requires config.Valid() && observed <= more
    ensures RankScore(config, observed) <= RankScore(config, more)
    decreases more
  {
    if observed != more {
      assert !(more <= observed);
      var o :| o in more && o !in observed;
      RankScoreGrows(config, observed, more - {o});
      RankScoreAdds(config, more - {o}, o);
      assert more - {o} + {o} == more;
    }
  }

  // ----- A fused list is determined

  datatype Outline = Outline(reference: Reference, score: real, evidence: seq<Evidence>)

  ghost function OutlineOf(c: Candidate): Outline {
    Outline(c.reference, c.score, c.channelEvidence)
  }

  /** References, scores, evidence and order of a fused list; quotes and providers left out. */
  ghost function Outlines(fused: seq<Candidate>): seq<Outline> {
    seq(|fused|, i requires 0 <= i < |fused| => OutlineOf(fused[i]))
  }

  lemma SameEvidenceSameOutline(config: Config, g: set<Candidate>, g': set<Candidate>, a: Candidate, b: Candidate)
    requires config.Valid() && FusedFrom(config, g, a) && FusedFrom(config, g', b)
    requires GroupEvidence(g) == GroupEvidence(g') && a.reference == b.reference
    ensures OutlineOf(a) == OutlineOf(b)
  {
    hide EvidenceLess, GroupEvidence, RankScore;
    EvidenceLessIsOrder();
    AscendingIsUnique(EvidenceLess, a.channelEvidence, b.channelEvidence);
  }

  lemma FusedIsUnique(config: Config, g: set<Candidate>, a: Candidate, b: Candidate)
    requires config.Valid() && FusedFrom(config, g, a) && FusedFrom(config, g, b) && a.reference == b.reference
    ensures a == b
  {
    SameEvidenceSameOutline(config, g, g, a, b);
    hide EvidenceLess, GroupEvidence, RankScore, NameLess;
    NameLessIsOrder();
    var several := |Channels(GroupEvidence(g))| > 1;
    var c :| Represents(g, c) && IsNamedAfter(a, c, several);
    var d :| Represents(g, d) && IsNamedAfter(b, d, several);
    assert !NameLess((c.provider, c.quote), (d.provider, d.quote));
    assert !NameLess((d.provider, d.quote), (c.provider, c.quote));
  }

  lemma OneEntryPerReference(config: Config, cs: seq<Candidate>, fused: seq<Candidate>, a: Candidate, b: Candidate)
    requires config.Valid() && IsFusion(config, cs, fused)
    requires a in fused && b in fused && a.reference == b.reference
    ensures a == b
  {
    FusedIsUnique(config, Group(cs, a.reference), a, b);
  }

  ghost predicate SameEvidence(cs: seq<Candidate>, cs': seq<Candidate>) {
    && References(cs) == References(cs')
    && forall r :: r in References(cs) ==> GroupEvidence(Group(cs, r)) == GroupEvidence(Group(cs', r))
  }

  // ----- only ranks decide the ranking

  datatype Standing = Standing(reference: Reference, score: real)

  ghost function StandingOf(c: Candidate): Standing {
    Standing(c.reference, c.score)
  }

  /** The ranking: references with their scores, in order. */
  ghost function Standings(fused: seq<Candidate>): seq<Standing> {
    seq(|fused|, i requires 0 <= i < |fused| => StandingOf(fused[i]))
  }

  ghost predicate StandsBefore(a: Standing, b: Standing) {
    a.score > b.score || (a.score == b.score && ReferenceLess(a.reference, b.reference))
  }

  /** The same references, each observed on the same channels at the same ranks. */
  ghost predicate SameRanks(cs: seq<Candidate>, cs': seq<Candidate>) {
    && References(cs) == References(cs')
    && forall r :: r in References(cs) ==>
         Observations(GroupEvidence(Group(cs, r))) == Observations(GroupEvidence(Group(cs', r)))
  }

  lemma SameRanksSameScore(config: Config, g: set<Candidate>, g': set<Candidate>, a: Candidate, b: Candidate)
    requires config.Valid() && FusedFrom(config, g, a) && FusedFrom(config, g', b)
    requires Observations(GroupEvidence(g)) == Observations(GroupEvidence(g'))
    ensures a.score == b.score
  {
  }

  lemma StandingsHold(config: Config, cs: seq<Candidate>, cs': seq<Candidate>, fused: seq<Candidate>,
                      fused': seq<Candidate>)
    requires config.Valid() && IsFusion(config, cs, fused) && IsFusion(config, cs', fused')
    requires SameRanks(cs, cs')
    ensures Elements(Standings(fused)) <= Elements(Standings(fused'))
  {
    hide GroupEvidence, Group, Ascending, FusedFrom, Observations;
    forall o | o in Elements(Standings(fused)) ensures o in Elements(Standings(fused')) {
      var i :| 0 <= i < |fused| && StandingOf(fused[i]) == o;
      assert fused[i].reference in References(fused');
      var j :| 0 <= j < |fused'| && fused'[j].reference == fused[i].reference;
      var r := o.reference;
      assert FusedFrom(config, Group(cs, r), fused[i]) && FusedFrom(config, Group(cs', r), fused'[j]);
      SameRanksSameScore(config, Group(cs, r), Group(cs', r), fused[i], fused'[j]);
      assert Standings(fused')[j] == o;
    }
  }

  lemma StandingsAreOrdered(config: Config, cs: seq<Candidate>, fused: seq<Candidate>)
    requires config.Valid() && IsFusion(config, cs, fused)
    ensures OrdersAll(StandsBefore, Elements(Standings(fused))) && Ascending(StandsBefore, Standings(fused))
  {
    ReferenceLessIsOrder();
    hide ReferenceLess, FusedFrom, Group;
    forall o, q | o in Elements(Standings(fused)) && q in Elements(Standings(fused)) && o.reference == q.reference
      ensures o == q
    {
      var i :| 0 <= i < |fused| && StandingOf(fused[i]) == o;
      var j :| 0 <= j < |fused| && StandingOf(fused[j]) == q;
      OneEntryPerReference(config, cs, fused, fused[i], fused[j]);
    }
  }

  /** Raw scores, providers and quotes carry no weight: the whole ranking depends on the channels and ranks at
      which each reference was observed. */
  lemma RanksDecideStandings(config: Config, cs: seq<Candidate>, cs': seq<Candidate>, fused: seq<Candidate>,
                             fused': seq<Candidate>)
    requires config.Valid() && IsFusion(config, cs, fused) && IsFusion(config, cs', fused')
    requires SameRanks(cs, cs')
    ensures Standings(fused) == Standings(fused')
  {
    StandingsHold(config, cs, cs', fused, fused');
    StandingsHold(config, cs', cs, fused', fused);
    StandingsAreOrdered(config, cs, fused);
    StandingsAreOrdered(config, cs', fused');
    hide OrdersAll, Ascending, Standings;
    AscendingIsUnique(StandsBefore, Standings(fused), Standings(fused'));
  }

  /** The references, scores, evidence and order of a fused list depend on the evidence each reference has, and on
      nothing else. */
  lemma SameEvidenceSameOutlines(config: Config, cs: seq<Candidate>, cs': seq<Candidate>, fused: seq<Candidate>,
                                 fused': seq<Candidate>)
    requires config.Valid() && IsFusion(config, cs, fused) && IsFusion(config, cs', fused')
    requires SameEvidence(cs, cs')
    ensures Outlines(fused) == Outlines(fused')
  {
    RanksDecideStandings(config, cs, cs', fused, fused');
    hide GroupEvidence, Group, Ascending, FusedFrom;
    assert |Standings(fused)| == |fused| && |Standings(fused')| == |fused'|;
    forall i | 0 <= i < |fused| ensures OutlineOf(fused[i]) == OutlineOf(fused'[i]) {
      assert Standings(fused)[i] == Standings(fused')[i];
      var r := fused[i].reference;
      assert r in References(fused);
      SameEvidenceSameOutline(config, Group(cs, r), Group(cs', r), fused[i], fused'[i]);
    }
  }

  /** Fusing a permutation, or a list with candidates repeated, gives the same list. */
  lemma OrderAndRepetitionDoNotMatter(config: Config, cs: seq<Candidate>, cs': seq<Candidate>, fused: seq<Candidate>,
                                      fused': seq<Candidate>)
    requires config.Valid() && IsFusion(config, cs, fused) && IsFusion(config, cs', fused')
    requires Elements(cs) == Elements(cs')
    ensures fused == fused'
  {
    forall c ensures c in cs <==> c in cs' {
      assert c in cs <==> c in Elements(cs);
      assert c in cs' <==> c in Elements(cs');
    }
    forall r ensures Group(cs, r) == Group(cs', r) {
    }
    assert References(cs) == References(cs');
    SameEvidenceSameOutlines(config, cs, cs', fused, fused');
    assert |Outlines(fused)| == |fused| && |Outlines(fused')| == |fused'|;
    forall i | 0 <= i < |fused| ensures fused[i] == fused'[i] {
      assert Outlines(fused)[i] == Outlines(fused')[i];
      FusedIsUnique(config, Group(cs, fused[i].reference), fused[i], fused'[i]);
    }
  }

  // ----- fusing what is fused already

  lemma FusedEvidenceIsNotEmpty(config: Config, g: set<Candidate>, out: Candidate)
    requires config.Valid() && FusedFrom(config, g, out)
    ensures out.channelEvidence != []
  {
    hide RankScore;
    var c :| Represents(g, c);
    var e := EvidenceOf(c)[0];
    assert e in EvidenceOf(c);
    assert e in GroupEvidence(g);
    assert e in Elements(out.channelEvidence);
  }

  lemma GroupOfFused(config: Config, cs: seq<Candidate>, fused: seq<Candidate>, out: Candidate)
    requires config.Valid() && IsFusion(config, cs, fused) && out in fused
    ensures Group(fused, out.reference) == {out}
    ensures GroupEvidence({out}) == Elements(out.channelEvidence)
  {
    forall c | c in fused && c.reference == out.reference ensures c == out {
      OneEntryPerReference(config, cs, fused, c, out);
    }
    assert out in Group(fused, out.reference);
    FusedEvidenceIsNotEmpty(config, Group(cs, out.reference), out);
    EvidenceOfOne(out);
  }

  lemma EvidenceOfOne(c: Candidate)
    ensures GroupEvidence({c}) == Elements(EvidenceOf(c))
  {
    forall e | e in EvidenceOf(c) ensures e in GroupEvidence({c}) {
      assert c in {c};
    }
  }

  lemma FusedStaysFused(config: Config, g: set<Candidate>, out: Candidate)
    requires config.Valid() && FusedFrom(config, g, out)
    requires GroupEvidence({out}) == Elements(out.channelEvidence)
    ensures FusedFrom(config, {out}, out)
  {
    hide RankScore, GroupEvidence, NameLess, Ascending;
    NameLessIsOrder();
    assert Represents({out}, out);
    assert IsNamedAfter(out, out, |Channels(GroupEvidence(g))| > 1);
  }

  /** Fusing a fused list changes nothing. */
  lemma FusionIsIdempotent(config: Config, cs: seq<Candidate>, fused: seq<Candidate>, again: seq<Candidate>)
    requires config.Valid() && IsFusion(config, cs, fused) && IsFusion(config, fused, again)
    ensures again == fused
  {
    forall out | out in fused ensures FusedFrom(config, Group(fused, out.reference), out) {
      GroupOfFused(config, cs, fused, out);
      FusedStaysFused(config, Group(cs, out.reference), out);
    }
    OrderAndRepetitionDoNotMatter(config, fused, fused, fused, again);
  }

  // ----- fusing in increments

  lemma FusionKeepsEvidence(config: Config, cs: seq<Candidate>, fused: seq<Candidate>, r: Reference)
    requires config.Valid() && IsFusion(config, cs, fused)
    ensures GroupEvidence(Group(fused, r)) == GroupEvidence(Group(cs, r))
  {
    if r in References(fused) {
      var out :| out in fused && out.reference == r;
      GroupOfFused(config, cs, fused, out);
    } else {
      assert r !in References(cs);
      assert Group(fused, r) == {} && Group(cs, r) == {};
    }
  }

  lemma ReferencesOfBoth(a: seq<Candidate>, b: seq<Candidate>)
    ensures References(a + b) == References(a) + References(b)
  {
  }

  lemma EvidenceOfBoth(a: seq<Candidate>, b: seq<Candidate>, r: Reference)
    ensures GroupEvidence(Group(a + b, r)) == GroupEvidence(Group(a, r)) + GroupEvidence(Group(b, r))
  {
    assert Group(a + b, r) == Group(a, r) + Group(b, r);
  }

  ghost function Flatten(batches: seq<seq<Candidate>>): seq<Candidate> {
    if batches == [] then [] else Flatten(batches[..|batches| - 1]) + batches[|batches| - 1]
  }

  /** Each state is the fusion of the one before it with the next batch. */
  ghost predicate FusedInSteps(config: Config, batches: seq<seq<Candidate>>, states: seq<seq<Candidate>>)
    requires config.Valid()
  {
    && |states| == |batches| + 1
    && states[0] == []
    && forall i :: 0 <= i < |batches| ==> IsFusion(config, states[i] + batches[i], states[i + 1])
  }

  /** One more batch: what held of the state before holds of the state after. */
  lemma StepKeepsEvidence(config: Config, before: seq<Candidate>, flat: seq<Candidate>, batch: seq<Candidate>,
                          after: seq<Candidate>)
    requires config.Valid() && SameEvidence(before, flat) && IsFusion(config, before + batch, after)
    ensures SameEvidence(after, flat + batch)
  {
    FusionKeepsReferences(config, before + batch, after);
    ReferencesOfBoth(before, batch);
    ReferencesOfBoth(flat, batch);
    forall r
      ensures GroupEvidence(Group(after, r)) == GroupEvidence(Group(before, r)) + GroupEvidence(Group(batch, r))
      ensures GroupEvidence(Group(flat + batch, r)) == GroupEvidence(Group(flat, r)) + GroupEvidence(Group(batch, r))
      ensures GroupEvidence(Group(before, r)) == GroupEvidence(Group(flat, r))
    {
      FusionKeepsEvidence(config, before + batch, after, r);
      EvidenceOfBoth(before, batch, r);
      EvidenceOfBoth(flat, batch, r);
      if r !in References(before) {
        NoReferenceNoEvidence(before, r);
        NoReferenceNoEvidence(flat, r);
      }
    }
    hide IsFusion, GroupEvidence, Group, References;
  }

  lemma {:induction false} StepsKeepEvidence(config: Config, batches: seq<seq<Candidate>>, states: seq<seq<Candidate>>,
                                             n: nat)
    requires config.Valid() && FusedInSteps(config, batches, states) && n <= |batches|
    ensures SameEvidence(states[n], Flatten(batches[..n]))
  {
    hide SameEvidence, IsFusion, Flatten;
    if n > 0 {
      StepsKeepEvidence(config, batches, states, n - 1);
      StepKeepsEvidence(config, states[n - 1], Flatten(batches[..n - 1]), batches[n - 1], states[n]);
      FlattenLast(batches, n);
    } else {
      NothingFlattened(batches);
    }
  }

  lemma NothingFlattened(batches: seq<seq<Candidate>>)
    ensures Flatten(batches[..0]) == [] && SameEvidence([], [])
  {
  }

  lemma FusionKeepsReferences(config: Config, cs: seq<Candidate>, fused: seq<Candidate>)
    requires config.Valid() && IsFusion(config, cs, fused)
    ensures References(fused) == References(cs)
  {
  }

  lemma FlattenLast(batches: seq<seq<Candidate>>, n: nat)
    requires 0 < n <= |batches|
    ensures Flatten(batches[..n]) == Flatten(batches[..n - 1]) + batches[n - 1]
  {
    assert batches[..n][..n - 1] == batches[..n - 1];
  }

  lemma NoReferenceNoEvidence(cs: seq<Candidate>, r: Reference)
    requires r !in References(cs)
    ensures GroupEvidence(Group(cs, r)) == {}
  {
    assert Group(cs, r) == {};
  }

  lemma NothingToFuse(config: Config, fused: seq<Candidate>)
    requires config.Valid() && IsFusion(config, [], fused)
    ensures fused == []
  {
    assert References(fused) == {};
    assert forall c :: c in fused ==> c.reference in References(fused);
    OnlyEmptyHasNone(fused);
  }

  /** Fusing batch after batch gives the references, scores, evidence and order of fusing all candidates at once. */
  lemma IncrementalIsBatch(config: Config, batches: seq<seq<Candidate>>, states: seq<seq<Candidate>>,
                           fused: seq<Candidate>)
    requires config.Valid() && FusedInSteps(config, batches, states)
    requires IsFusion(config, Flatten(batches), fused)
    ensures Outlines(states[|batches|]) == Outlines(fused)
  {
    if batches == [] {
      NothingToFuse(config, fused);
      return;
    }
    var n := |batches| - 1;
    StepsKeepEvidence(config, batches, states, |batches|);
    assert batches[..|batches|] == batches;
    var all := states[n] + batches[n];
    var out := states[n + 1];
    assert IsFusion(config, all, out);
    hide GroupEvidence, Group, Flatten, FusedFrom, Ascending;
    forall r ensures GroupEvidence(Group(out, r)) == GroupEvidence(Group(all, r)) {
      FusionKeepsEvidence(config, all, out, r);
    }
    assert SameEvidence(all, Flatten(batches));
    SameEvidenceSameOutlines(config, all, Flatten(batches), out, fused);
  }

  // ----- new evidence

  /** Further candidates never lower a reference's score, and leave the outline of every reference they do not
      mention as it was. */
  lemma NewEvidenceIsLocal(config: Config, cs: seq<Candidate>, extra: seq<Candidate>,
                           fused: seq<Candidate>, fused': seq<Candidate>, out: Candidate, out': Candidate)
    requires config.Valid() && IsFusion(config, cs, fused) && IsFusion(config, cs + extra, fused')
    requires out in fused && out' in fused' && out.reference == out'.reference
    ensures out.score <= out'.score
    ensures out.reference !in References(extra) ==> OutlineOf(out) == OutlineOf(out')
  {
    var r := out.reference;
    var g, g' := Group(cs, r), Group(cs + extra, r);
    EvidenceOfBoth(cs, extra, r);
    hide GroupEvidence, Group, Ascending, RankScore;
    assert FusedFrom(config, g, out) && FusedFrom(config, g', out');
    RankScoreGrows(config, Observations(GroupEvidence(g)), Observations(GroupEvidence(g')));
    if r !in References(extra) {
      NoReferenceNoEvidence(extra, r);
      SameEvidenceSameOutline(config, g, g', out, out');
    }
  }

  // ----- the algorithm

  /** The smallest (provider, quote) of a group names the fused candidate. */
  method Representative(group: seq<Candidate>) returns (c: Candidate)
    requires group != []
    ensures Represents(Elements(group), c)
  {
    NameLessIsOrder();
    hide NameLess;
    c := group[0];
    for i := 1 to |group|
      invariant c in group
      invariant forall d :: d in group[..i] ==> !NameLess((d.provider, d.quote), (c.provider, c.quote))
    {
      if NameLess((group[i].provider, group[i].quote), (c.provider, c.quote)) {
        c := group[i];
      }
    }
  }

  method ScoreOf(config: Config, observed: set<(string, Rank)>) returns (score: real)
    requires config.Valid()
    ensures score == RankScore(config, observed)
  {
    score := 0.0;
    var done: set<(string, Rank)> := {};
    while done != observed
      invariant done <= observed
      invariant score == RankScore(config, done)
      decreases observed - done
    {
      assert !(observed <= done);
      var o :| o in observed && o !in done;
      var weight := config.WeightFor(o.0);
      RankScoreAdds(config, done, o);
      score := score + weight / (config.rankBase + o.1 as real);
      done := done + {o};
    }
  }

  method FuseGroup(config: Config, group: seq<Candidate>, r: Reference) returns (out: Candidate)
    requires config.Valid() && group != []
    requires forall c :: c in group ==> c.reference == r
    ensures out.reference == r && FusedFrom(config, Elements(group), out)
  {
    hide RankScore, EvidenceLess, NameLess, Represents, Ascending, OrdersAll;
    var evidence: seq<Evidence> := [];
    for i := 0 to |group|
      invariant Elements(evidence) == GroupEvidence(Elements(group[..i]))
    {
      EvidenceGrows(group, i, evidence);
      evidence := evidence + group[i].channelEvidence;
      if group[i].channelEvidence == [] {
        evidence := evidence + [Evidence(group[i].provider, 1, group[i].score)];
      }
    }
    assert group[..|group|] == group;
    var unique := Sorted(EvidenceLess, evidence);
    EvidenceIsSorted(evidence);
    var observed := set e | e in unique :: (e.channel, e.channelRank);
    var channels := set e | e in unique :: e.channel;
    SortedNames(unique, Elements(evidence));
    var score := ScoreOf(config, observed);
    var c := Representative(group);
    RepresentativeIsMember(group, c);
    var provider := if |channels| > 1 then FUSION_PROVIDER else c.provider;
    out := Candidate(c.reference, score, provider, c.quote, unique);
    assert IsNamedAfter(out, c, |Channels(GroupEvidence(Elements(group)))| > 1);
  }

  lemma RepresentativeIsMember(group: seq<Candidate>, c: Candidate)
    requires Represents(Elements(group), c)
    ensures c in group
  {
  }

  lemma EvidenceGrows(group: seq<Candidate>, i: nat, evidence: seq<Evidence>)
    requires i < |group| && Elements(evidence) == GroupEvidence(Elements(group[..i]))
    ensures Elements(evidence + EvidenceOf(group[i])) == GroupEvidence(Elements(group[..i + 1]))
  {
    assert group[..i + 1] == group[..i] + [group[i]];
    assert Elements(group[..i + 1]) == Elements(group[..i]) + {group[i]};
    EvidenceOfOne(group[i]);
    var before := Elements(group[..i]);
    assert GroupEvidence(before + {group[i]}) == GroupEvidence(before) + GroupEvidence({group[i]});
    assert Elements(evidence + EvidenceOf(group[i])) == Elements(evidence) + Elements(EvidenceOf(group[i]));
  }

  lemma EvidenceIsSorted(evidence: seq<Evidence>)
    ensures Ascending(EvidenceLess, Sorted(EvidenceLess, evidence))
    ensures Elements(Sorted(EvidenceLess, evidence)) == Elements(evidence)
  {
    EvidenceLessIsOrder();
    hide EvidenceLess;
    SortedIsSorted(EvidenceLess, evidence);
  }

  lemma SortedNames(unique: seq<Evidence>, evidence: set<Evidence>)
    requires Elements(unique) == evidence
    ensures (set e | e in unique :: (e.channel, e.channelRank)) == Observations(evidence)
    ensures (set e | e in unique :: e.channel) == Channels(evidence)
  {
    forall e ensures e in unique <==> e in evidence {
      assert e in unique <==> e in Elements(unique);
    }
  }

  ghost predicate Grouped(cs: seq<Candidate>, keys: seq<Reference>, grouped: map<Reference, seq<Candidate>>) {
    && Elements(keys) == grouped.Keys == References(cs)
    && forall r :: r in grouped ==> Elements(grouped[r]) == Group(cs, r)
  }

  lemma GroupedGrows(cs: seq<Candidate>, i: nat, keys: seq<Reference>, grouped: map<Reference, seq<Candidate>>)
    requires i < |cs| && Grouped(cs[..i], keys, grouped)
    ensures var r := cs[i].reference;
            if r in grouped then Grouped(cs[..i + 1], keys, grouped[r := grouped[r] + [cs[i]]])
            else Grouped(cs[..i + 1], keys + [r], grouped[r := [cs[i]]])
  {
    var r := cs[i].reference;
    forall q ensures Group(cs[..i + 1], q) == Group(cs[..i], q) + if q == r then {cs[i]} else {} {
      GroupGrows(cs, i, q);
    }
    ReferencesGrow(cs, i);
    if r !in grouped {
      assert Group(cs[..i], r) == {} by { assert r !in References(cs[..i]); }
    }
    hide Group, References;
  }

  lemma GroupGrows(cs: seq<Candidate>, i: nat, q: Reference)
    requires i < |cs|
    ensures Group(cs[..i + 1], q) == Group(cs[..i], q) + if q == cs[i].reference then {cs[i]} else {}
  {
    assert cs[..i + 1] == cs[..i] + [cs[i]];
  }

  lemma ReferencesGrow(cs: seq<Candidate>, i: nat)
    requires i < |cs|
    ensures References(cs[..i + 1]) == References(cs[..i]) + {cs[i].reference}
  {
    assert cs[..i + 1] == cs[..i] + [cs[i]];
  }

  method FuseCandidates(config: Config, candidates: seq<Candidate>) returns (fused: seq<Candidate>)
    requires config.Valid()
    ensures IsFusion(config, candidates, fused)
  {
    hide Grouped, FusedFrom, Ascending;
    var keys: seq<Reference> := [];
    var grouped: map<Reference, seq<Candidate>> := map[];
    NothingGrouped(candidates);
    for i := 0 to |candidates|
      invariant Grouped(candidates[..i], keys, grouped)
    {
      GroupedGrows(candidates, i, keys, grouped);
      var r := candidates[i].reference;
      if r in grouped {
        grouped := grouped[r := grouped[r] + [candidates[i]]];
      } else {
        keys := keys + [r];
        grouped := grouped[r := [candidates[i]]];
      }
    }
    assert candidates[..|candidates|] == candidates;
    var entries: seq<Candidate> := [];
    for k := 0 to |keys|
      invariant |entries| == k
      invariant forall j :: 0 <= j < k ==> entries[j].reference == keys[j]
      invariant forall j :: 0 <= j < k ==> FusedFrom(config, Group(candidates, keys[j]), entries[j])
    {
      GroupedAt(candidates, keys, grouped, k);
      var out := FuseGroup(config, grouped[keys[k]], keys[k]);
      entries := entries + [out];
    }
    fused := Sorted(Before, entries);
    EntriesSorted(config, candidates, keys, grouped, entries);
  }

  lemma NothingGrouped(cs: seq<Candidate>)
    ensures Grouped(cs[..0], [], map[])
  {
  }

  lemma GroupedAt(cs: seq<Candidate>, keys: seq<Reference>, grouped: map<Reference, seq<Candidate>>, k: nat)
    requires Grouped(cs, keys, grouped) && k < |keys|
    ensures keys[k] in grouped && grouped[keys[k]] != []
    ensures Elements(grouped[keys[k]]) == Group(cs, keys[k])
    ensures forall c :: c in grouped[keys[k]] ==> c.reference == keys[k]
  {
    var r := keys[k];
    assert r in Elements(keys);
    assert r in References(cs);
    var c :| c in cs && c.reference == r;
    assert c in Group(cs, r);
    forall d | d in grouped[r] ensures d.reference == r {
      assert d in Elements(grouped[r]);
    }
  }

  lemma {:induction false} EntriesSorted(config: Config, cs: seq<Candidate>, keys: seq<Reference>,
                                         grouped: map<Reference, seq<Candidate>>, entries: seq<Candidate>)
    requires config.Valid() && Grouped(cs, keys, grouped) && |entries| == |keys|
    requires forall j :: 0 <= j < |keys| ==> entries[j].reference == keys[j]
    requires forall j :: 0 <= j < |keys| ==> FusedFrom(config, Group(cs, keys[j]), entries[j])
    ensures IsFusion(config, cs, Sorted(Before, entries))
  {
    hide FusedFrom, Group;
    forall a, b | a in entries && b in entries && a.reference == b.reference ensures a == b {
      FusedIsUnique(config, Group(cs, a.reference), a, b);
    }
    EntriesOrdered(entries);
    SortedIsSorted(Before, entries);
    var fused := Sorted(Before, entries);
    forall out ensures out in fused <==> out in entries {
      assert out in fused <==> out in Elements(fused);
    }
    EntryReferences(keys, entries);
    hide Ascending, OrdersAll, Before, Sorted;
    assert References(fused) == References(entries);
  }

  lemma EntryReferences(keys: seq<Reference>, entries: seq<Candidate>)
    requires |entries| == |keys|
    requires forall j :: 0 <= j < |keys| ==> entries[j].reference == keys[j]
    ensures References(entries) == Elements(keys)
  {
    forall r | r in keys ensures r in References(entries) {
      var j :| 0 <= j < |keys| && keys[j] == r;
      assert entries[j] in entries;
    }
  }

  lemma EntriesOrdered(entries: seq<Candidate>)
    requires forall a, b :: a in entries && b in entries && a.reference == b.reference ==> a == b
    ensures OrdersAll(Before, Elements(entries))
  {
    ReferenceLessIsOrder();
    hide ReferenceLess;
  }

  // ----- the fused list, in terms of the candidates

  /** The order of references: numbers by size, texts by their first difference, a missing text before any. */
  ghost predicate CommitsBefore(a: Reference, b: Reference) {
    if a.eventId != b.eventId then a.eventId < b.eventId
    else if a.chunkId != b.chunkId then a.chunkId < b.chunkId
    else if a.sourceRevision != b.sourceRevision then a.sourceRevision < b.sourceRevision
    else if a.startChar != b.startChar then a.startChar < b.startChar
    else if a.endChar != b.endChar then a.endChar < b.endChar
    else if a.payloadSha256 != b.payloadSha256 then TextBefore(a.payloadSha256, b.payloadSha256)
    else if a.chainHash != b.chainHash then TextBefore(a.chainHash, b.chainHash)
    else if a.chunkSha256 != b.chunkSha256 then TextBefore(a.chunkSha256, b.chunkSha256)
    else if a.chunkOrdinal != b.chunkOrdinal then a.chunkOrdinal < b.chunkOrdinal
    else if a.sourceHash != b.sourceHash then MaybeBefore(a.sourceHash, b.sourceHash)
    else MaybeBefore(a.sourceCreatedAt, b.sourceCreatedAt)
  }

  ghost predicate MaybeBefore(a: Option<string>, b: Option<string>) {
    b.Some? && (a.Some? ==> TextBefore(a.value, b.value))
  }

  lemma MaybeBeforeIff(a: Option<string>, b: Option<string>)
    ensures PartLess(Nullable(a), Nullable(b)) <==> MaybeBefore(a, b)
  {
    if a.Some? && b.Some? {
      PartLessOfChars(a.value, b.value);
      assert Nullable(a)[1..] == Chars(a.value) && Nullable(b)[1..] == Chars(b.value);
    }
  }

  lemma NumberBeforeIff(m: int, n: int)
    ensures PartLess(Number(m), Number(n)) <==> m < n
    ensures Number(m) == Number(n) <==> m == n
  {
    assert IsOrder(IntLess);
    if m == n {
      PrefixComesFirst(IntLess, Number(m), Number(n));
    } else {
      FirstDifferenceDecides(IntLess, Number(m), Number(n), 0);
    }
    assert Number(m)[0] == m && Number(n)[0] == n;
  }

  lemma PartsDiffer(a: Reference, b: Reference)
    ensures var x, y := ReferenceKey(a), ReferenceKey(b);
            && (x[0] == y[0] <==> a.eventId == b.eventId) && (x[1] == y[1] <==> a.chunkId == b.chunkId)
            && (x[2] == y[2] <==> a.sourceRevision == b.sourceRevision)
            && (x[3] == y[3] <==> a.startChar == b.startChar)
            && (x[4] == y[4] <==> a.endChar == b.endChar) && (x[5] == y[5] <==> a.payloadSha256 == b.payloadSha256)
            && (x[6] == y[6] <==> a.chainHash == b.chainHash) && (x[7] == y[7] <==> a.chunkSha256 == b.chunkSha256)
            && (x[8] == y[8] <==> a.chunkOrdinal == b.chunkOrdinal) && (x[9] == y[9] <==> a.sourceHash == b.sourceHash)
            && (x[10] == y[10] <==> a.sourceCreatedAt == b.sourceCreatedAt)
  {
    hide Number, Chars, Nullable;
    NumberBeforeIff(a.eventId, b.eventId);
    NumberBeforeIff(a.chunkId, b.chunkId);
    NumberBeforeIff(a.sourceRevision, b.sourceRevision);
    NumberBeforeIff(a.startChar, b.startChar);
    NumberBeforeIff(a.endChar, b.endChar);
    NumberBeforeIff(a.chunkOrdinal, b.chunkOrdinal);
    SameChars(a.payloadSha256, b.payloadSha256);
    SameChars(a.chainHash, b.chainHash);
    SameChars(a.chunkSha256, b.chunkSha256);
    SameNullable(a.sourceHash, b.sourceHash);
    SameNullable(a.sourceCreatedAt, b.sourceCreatedAt);
  }

  lemma SameChars(s: string, t: string)
    ensures Chars(s) == Chars(t) <==> s == t
  {
    if Chars(s) == Chars(t) {
      CharsInjective(s, t);
    }
  }

  lemma SameNullable(s: Option<string>, t: Option<string>)
    ensures Nullable(s) == Nullable(t) <==> s == t
  {
    if Nullable(s) == Nullable(t) {
      NullableInjective(s, t);
    }
  }

  /** The first part in which two keys differ decides. */
  lemma PartDecides(a: Reference, b: Reference, k: nat)
    requires k < 11 && ReferenceKey(a)[k] != ReferenceKey(b)[k]
    requires forall j :: 0 <= j < k ==> ReferenceKey(a)[j] == ReferenceKey(b)[j]
    ensures ReferenceLess(a, b) <==> PartLess(ReferenceKey(a)[k], ReferenceKey(b)[k])
  {
    PartLessIsOrder();
    hide ReferenceKey, PartLess;
    KeyLength(a);
    KeyLength(b);
    var x, y := ReferenceKey(a), ReferenceKey(b);
    assert x[..k] == y[..k];
    FirstDifferenceDecides(PartLess, x, y, k);
  }

  lemma KeyLength(r: Reference)
    ensures |ReferenceKey(r)| == 11
  {
  }

  /** References are compared field by field. */
  lemma ReferenceLessIff(a: Reference, b: Reference)
    ensures ReferenceLess(a, b) <==> CommitsBefore(a, b)
  {
    PartsDiffer(a, b);
    NumberBeforeIff(a.eventId, b.eventId);
    NumberBeforeIff(a.chunkId, b.chunkId);
    NumberBeforeIff(a.sourceRevision, b.sourceRevision);
    NumberBeforeIff(a.startChar, b.startChar);
    NumberBeforeIff(a.endChar, b.endChar);
    NumberBeforeIff(a.chunkOrdinal, b.chunkOrdinal);
    PartLessOfChars(a.payloadSha256, b.payloadSha256);
    PartLessOfChars(a.chainHash, b.chainHash);
    PartLessOfChars(a.chunkSha256, b.chunkSha256);
    MaybeBeforeIff(a.sourceHash, b.sourceHash);
    MaybeBeforeIff(a.sourceCreatedAt, b.sourceCreatedAt);
    assert !MaybeBefore(a.sourceCreatedAt, a.sourceCreatedAt);
    hide ReferenceLess, PartLess, TextBefore, MaybeBefore, Number, Chars, Nullable;
    if a == b {
      ReferenceLessIsOrder();
    } else {
      PartDecides(a, b, FirstDifferentPart(a, b));
    }
  }

  function FirstDifferentPart(a: Reference, b: Reference): nat {
    if a.eventId != b.eventId then 0
    else if a.chunkId != b.chunkId then 1
    else if a.sourceRevision != b.sourceRevision then 2
    else if a.startChar != b.startChar then 3
    else if a.endChar != b.endChar then 4
    else if a.payloadSha256 != b.payloadSha256 then 5
    else if a.chainHash != b.chainHash then 6
    else if a.chunkSha256 != b.chunkSha256 then 7
    else if a.chunkOrdinal != b.chunkOrdinal then 8
    else if a.sourceHash != b.sourceHash then 9
    else 10
  }

  /** What a fused candidate shows: the evidence of the candidates that commit to its reference, without repetitions
      and in order of channel, rank and raw score. */
  lemma FusedEvidenceIs(config: Config, cs: seq<Candidate>, fused: seq<Candidate>, out: Candidate)
    requires config.Valid() && IsFusion(config, cs, fused) && out in fused
    ensures forall e :: e in out.channelEvidence <==>
              exists c :: c in cs && c.reference == out.reference && Observes(c, e)
    ensures forall i, j :: 0 <= i < j < |out.channelEvidence| ==>
              ObservedBefore(out.channelEvidence[i], out.channelEvidence[j])
  {
    var evidence := GroupEvidence(Group(cs, out.reference));
    EvidenceIsObserved(cs, out.reference);
    forall e ensures e in out.channelEvidence <==> e in evidence {
      assert e in out.channelEvidence <==> e in Elements(out.channelEvidence);
    }
    forall s: string, t: string ensures StringLess(s, t) <==> TextBefore(s, t) {
      PartLessOfChars(s, t);
    }
    hide RankScore, StringLess, TextBefore, GroupEvidence, Observes;
  }

  /** What names it: the quote and the provider of the candidate with the least provider and quote, unless several
      channels contributed. */
  lemma FusedIsNamed(config: Config, cs: seq<Candidate>, fused: seq<Candidate>, out: Candidate)
    requires config.Valid() && IsFusion(config, cs, fused) && out in fused
    ensures exists c :: c in cs && c.reference == out.reference && c.quote == out.quote
              && (forall d :: d in cs && d.reference == out.reference ==>
                    !TextBefore(d.provider, c.provider)
                    && (d.provider == c.provider ==> !TextBefore(d.quote, c.quote)))
              && out.provider == if SeveralChannels(out.channelEvidence) then "soullink.rank_fusion" else c.provider
  {
    var group := Group(cs, out.reference);
    var evidence := GroupEvidence(group);
    forall s: string, t: string ensures StringLess(s, t) <==> TextBefore(s, t) {
      PartLessOfChars(s, t);
    }
    hide RankScore, StringLess, TextBefore, GroupEvidence, Ascending, SeveralChannels;
    var c :| Represents(group, c) && IsNamedAfter(out, c, |Channels(evidence)| > 1);
    SeveralIff(out.channelEvidence, evidence);
    forall d | d in cs && d.reference == out.reference
      ensures !TextBefore(d.provider, c.provider) && (d.provider == c.provider ==> !TextBefore(d.quote, c.quote))
    {
      assert d in group;
    }
  }

  lemma EvidenceIsObserved(cs: seq<Candidate>, r: Reference)
    ensures forall e :: e in GroupEvidence(Group(cs, r)) <==> exists c :: c in cs && c.reference == r && Observes(c, e)
  {
    forall c, e | c in cs && c.reference == r && Observes(c, e) ensures e in GroupEvidence(Group(cs, r)) {
      assert c in Group(cs, r) && e in EvidenceOf(c);
    }
    forall e | e in GroupEvidence(Group(cs, r)) ensures exists c :: c in cs && c.reference == r && Observes(c, e) {
      var c :| c in Group(cs, r) && e in EvidenceOf(c);
      assert Observes(c, e);
    }
  }

  /** The evidence a candidate brings: its own, or one observation by its provider at rank 1. */
  predicate Observes(c: Candidate, e: Evidence) {
    e in c.channelEvidence || (c.channelEvidence == [] && e == Evidence(c.provider, 1, c.score))
  }

  ghost predicate ObservedBefore(a: Evidence, b: Evidence) {
    if a.channel != b.channel then TextBefore(a.channel, b.channel)
    else if a.channelRank != b.channelRank then a.channelRank < b.channelRank
    else a.rawScore < b.rawScore
  }

  predicate SeveralChannels(evidence: seq<Evidence>) {
    exists i, j :: 0 <= i < j < |evidence| && evidence[i].channel != evidence[j].channel
  }

  lemma SeveralIff(list: seq<Evidence>, evidence: set<Evidence>)
    requires Elements(list) == evidence
    ensures |Channels(evidence)| > 1 <==> SeveralChannels(list)
  {
    var channels := Channels(evidence);
    if SeveralChannels(list) {
      var i, j :| 0 <= i < j < |list| && list[i].channel != list[j].channel;
      assert list[i] in evidence && list[j] in evidence;
      assert {list[i].channel, list[j].channel} <= channels;
      Subset({list[i].channel, list[j].channel}, channels);
    } else if list != [] {
      forall x | x in channels ensures x == list[0].channel {
        var e :| e in evidence && e.channel == x;
        var i :| 0 <= i < |list| && list[i] == e;
        assert i > 0 ==> list[0].channel == list[i].channel;
      }
      Subset(channels, {list[0].channel});
    } else {
      assert channels == {};
    }
  }

  lemma {:induction false} Subset<T>(s: set<T>, t: set<T>)
    requires s <= t
    ensures |s| <= |t|
  {
    if s != {} {
      var x :| x in s;
      Subset(s - {x}, t - {x});
    }
  }

  /** A fused list is in order of score, the highest first, and of reference where scores are equal. */
  lemma FusedIsInOrder(config: Config, cs: seq<Candidate>, fused: seq<Candidate>, i: nat, j: nat)
    requires config.Valid() && IsFusion(config, cs, fused) && i < j < |fused|
    ensures fused[i].score > fused[j].score
            || (fused[i].score == fused[j].score && CommitsBefore(fused[i].reference, fused[j].reference))
  {
    ReferenceLessIff(fused[i].reference, fused[j].reference);
    hide ReferenceLess, FusedFrom, CommitsBefore;
    assert Before(fused[i], fused[j]);
  }

  // ----- what a score is worth

  /** The weight of a channel: the configured one, or one. */
  ghost predicate Weighs(config: Config, channel: string, w: real) {
    && (forall i :: 0 <= i < |config.channelWeights| && config.channelWeights[i].0 == channel ==>
          config.channelWeights[i].1 == w)
    && ((forall i :: 0 <= i < |config.channelWeights| ==> config.channelWeights[i].0 != channel) ==> w == 1.0)
  }

  function Total(shares: seq<real>): real {
    if shares == [] then 0.0 else Total(shares[..|shares| - 1]) + shares[|shares| - 1]
  }

  /** The reference is observed at these channels and ranks, each listed once. */
  ghost predicate ObservedAt(cs: seq<Candidate>, r: Reference, at: seq<(string, Rank)>) {
    && (forall i, j :: 0 <= i < j < |at| ==> at[i] != at[j])
    && (forall o :: o in at <==> exists c, e :: c in cs && c.reference == r && Observes(c, e)
                                                && (e.channel, e.channelRank) == o)
  }

  /** A share is the weight of its channel, divided by base and rank together. */
  ghost predicate Shares(config: Config, at: seq<(string, Rank)>, shares: seq<real>) {
    && |shares| == |at|
    && forall i :: 0 <= i < |at| ==>
         Weighs(config, at[i].0, shares[i] * (config.rankBase + at[i].1 as real))
  }

  lemma ContributionWeighs(config: Config, o: (string, Rank), share: real)
    requires config.Valid()
    ensures Weighs(config, o.0, share * (config.rankBase + o.1 as real)) <==> share == Contribution(config, o)
  {
    var base := config.rankBase + o.1 as real;
    WeightIs(config, o.0, share * base);
    hide Weighs, Config.Weight, Config.Valid;
    DividesIff(config.Weight(o.0), base, share);
  }

  lemma DividesIff(w: real, base: real, share: real)
    requires base > 0.0
    ensures share * base == w <==> share == w / base
  {
    if share * base == w {
      assert (share - w / base) * base == 0.0;
    }
  }

  lemma WeightIs(config: Config, channel: string, w: real)
    requires config.Valid()
    ensures Weighs(config, channel, w) <==> w == config.Weight(channel)
  {
    if config.Configured(channel) {
      var i :| 0 <= i < |config.channelWeights| && config.channelWeights[i].0 == channel;
      assert config.Weight(channel) == config.channelWeights[i].1;
    }
  }

  lemma SharesContribute(config: Config, at: seq<(string, Rank)>, shares: seq<real>)
    requires config.Valid() && Shares(config, at, shares)
    ensures |shares| == |at| && forall i :: 0 <= i < |at| ==> shares[i] == Contribution(config, at[i])
  {
    forall i | 0 <= i < |at| ensures shares[i] == Contribution(config, at[i]) {
      ContributionWeighs(config, at[i], shares[i]);
    }
  }

  lemma {:induction false} TotalIsRankScore(config: Config, at: seq<(string, Rank)>, shares: seq<real>)
    requires config.Valid() && |shares| == |at|
    requires forall i :: 0 <= i < |at| ==> shares[i] == Contribution(config, at[i])
    requires forall i, j :: 0 <= i < j < |at| ==> at[i] != at[j]
    ensures Total(shares) == RankScore(config, Elements(at))
  {
    hide Contribution;
    if at != [] {
      var n := |at| - 1;
      TotalIsRankScore(config, at[..n], shares[..n]);
      assert at == at[..n] + [at[n]];
      assert Elements(at) == Elements(at[..n]) + {at[n]};
      RankScoreAdds(config, Elements(at[..n]), at[n]);
    } else {
      assert Elements(at) == {};
    }
  }

  /** The score is the total of the shares of the channels and ranks at which the reference was observed. */
  lemma ScoreIsTotal(config: Config, cs: seq<Candidate>, fused: seq<Candidate>, out: Candidate,
                     at: seq<(string, Rank)>, shares: seq<real>)
    requires config.Valid() && IsFusion(config, cs, fused) && out in fused
    requires ObservedAt(cs, out.reference, at) && Shares(config, at, shares)
    ensures out.score == Total(shares)
  {
    ObservedSet(cs, out.reference, at);
    SharesContribute(config, at, shares);
    ScoreOfFused(config, cs, fused, out);
    hide *;
    TotalIsRankScore(config, at, shares);
  }

  lemma ObservedSet(cs: seq<Candidate>, r: Reference, at: seq<(string, Rank)>)
    requires ObservedAt(cs, r, at)
    ensures Observations(GroupEvidence(Group(cs, r))) == Elements(at)
    ensures forall i, j :: 0 <= i < j < |at| ==> at[i] != at[j]
  {
    var observed := Observations(GroupEvidence(Group(cs, r)));
    forall o | o in at ensures o in observed {
      var c, e :| c in cs && c.reference == r && Observes(c, e) && (e.channel, e.channelRank) == o;
      assert c in Group(cs, r) && e in EvidenceOf(c);
      assert e in GroupEvidence(Group(cs, r));
    }
    forall o | o in observed ensures o in at {
      var e :| e in GroupEvidence(Group(cs, r)) && (e.channel, e.channelRank) == o;
      var c :| c in Group(cs, r) && e in EvidenceOf(c);
      assert Observes(c, e);
    }
  }

  /** A reference observed once: its score, times base and rank together, is the weight of the channel. */
  lemma ObservedOnce(config: Config, cs: seq<Candidate>, fused: seq<Candidate>, out: Candidate, channel: string,
                     rank: Rank)
    requires config.Valid() && IsFusion(config, cs, fused) && out in fused
    requires ObservedAt(cs, out.reference, [(channel, rank)])
    ensures Weighs(config, channel, out.score * (config.rankBase + rank as real))
  {
    OnceContributes(config, cs, fused, out, (channel, rank));
    hide *;
    ContributionWeighs(config, (channel, rank), out.score);
  }

  lemma OnceContributes(config: Config, cs: seq<Candidate>, fused: seq<Candidate>, out: Candidate, o: (string, Rank))
    requires config.Valid() && IsFusion(config, cs, fused) && out in fused && ObservedAt(cs, out.reference, [o])
    ensures out.score == Contribution(config, o)
  {
    hide *;
    ObservedSet(cs, out.reference, [o]);
    ScoreOfFused(config, cs, fused, out);
    OneContribution(config, o);
  }

  lemma ScoreOfFused(config: Config, cs: seq<Candidate>, fused: seq<Candidate>, out: Candidate)
    requires config.Valid() && IsFusion(config, cs, fused) && out in fused
    ensures out.score == RankScore(config, Observations(GroupEvidence(Group(cs, out.reference))))
  {
  }

  lemma OneContribution(config: Config, o: (string, Rank))
    requires config.Valid()
    ensures RankScore(config, Elements([o])) == Contribution(config, o)
  {
    RankScoreAdds(config, {}, o);
    assert Elements([o]) == {} + {o};
  }

  lemma BetterRankContributesMore(config: Config, channel: string, better: Rank, worse: Rank)
    requires config.Valid() && better < worse
    ensures Contribution(config, (channel, better)) >= Contribution(config, (channel, worse))
    ensures Contribution(config, (channel, better)) > Contribution(config, (channel, worse)) <==>
            !Weighs(config, channel, 0.0)
  {
    WeightIs(config, channel, 0.0);
    var w, m, n := config.Weight(channel), config.rankBase + better as real, config.rankBase + worse as real;
    assert 0.0 < m < n;
    Quotients(w, m, n);
  }

  lemma Quotients(w: real, m: real, n: real)
    requires w >= 0.0 && 0.0 < m < n
    ensures w / m >= w / n && (w / m > w / n <==> w != 0.0)
  {
    var x, y := w / m, w / n;
    assert x * m == w && y * n == w;
    if w > 0.0 {
      assert x > 0.0;
      assert x * m < x * n;
      assert (x - y) * n > 0.0;
    }
  }

  /** Of two references observed once, on one channel of some weight, the one with the better rank has the higher
      score and stands first. */
  lemma BetterRankStandsFirst(config: Config, cs: seq<Candidate>, fused: seq<Candidate>, i: nat, j: nat,
                              channel: string, better: Rank, worse: Rank)
    requires config.Valid() && IsFusion(config, cs, fused) && i < |fused| && j < |fused|
    requires ObservedAt(cs, fused[i].reference, [(channel, better)])
    requires ObservedAt(cs, fused[j].reference, [(channel, worse)])
    requires better < worse && !Weighs(config, channel, 0.0)
    ensures fused[i].score > fused[j].score && i < j
  {
    OnceContributes(config, cs, fused, fused[i], (channel, better));
    OnceContributes(config, cs, fused, fused[j], (channel, worse));
    hide *;
    BetterRankContributesMore(config, channel, better, worse);
    if j < i {
      FusedIsInOrder(config, cs, fused, j, i);
    }
  }

  /** Replacing one observation by a better rank on the same channel does not lower the score, unless the reference
      was observed at that rank already and the channel has a weight: then the two count as one. */
  lemma BetterRankRaisesIff(config: Config, cs: seq<Candidate>, fused: seq<Candidate>, out: Candidate,
                            cs': seq<Candidate>, fused': seq<Candidate>, out': Candidate,
                            rest: set<(string, Rank)>, channel: string, better: Rank, worse: Rank)
    requires config.Valid() && IsFusion(config, cs, fused) && IsFusion(config, cs', fused')
    requires out in fused && out' in fused' && better < worse && (channel, worse) !in rest
    requires Observations(GroupEvidence(Group(cs, out.reference))) == rest + {(channel, worse)}
    requires Observations(GroupEvidence(Group(cs', out'.reference))) == rest + {(channel, better)}
    ensures out'.score >= out.score <==> (channel, better) !in rest || Weighs(config, channel, 0.0)
  {
    hide Weighs, GroupEvidence, Group, Observations, RankScore, IsFusion;
    ScoreOfFused(config, cs, fused, out);
    ScoreOfFused(config, cs', fused', out');
    RankScoreAdds(config, rest, (channel, worse));
    BetterRankContributesMore(config, channel, better, worse);
    if (channel, better) in rest {
      assert rest + {(channel, better)} == rest;
      WeightIs(config, channel, 0.0);
      Quotients(config.Weight(channel), config.rankBase + worse as real, config.rankBase + worse as real + 1.0);
    } else {
      RankScoreAdds(config, rest, (channel, better));
    }
  }
}
