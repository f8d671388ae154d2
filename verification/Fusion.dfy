/** index/pipeline/index.go, mergeResults: the result lists of several indexes are fused by reciprocal rank.
    Scores are real numbers; legs arrive in any order. */
module Fusion {
  import opened Wrappers
  import opened Order

  /** One entry of an index's answer: a source and its sections, best first. */
  datatype Hit = Hit(source: string, sections: seq<string>)

  /** The answer of one index, and the weight configured for it. */
  datatype Leg = Leg(weight: real, results: seq<Hit>)

  datatype Merged = Merged(source: string, sections: seq<string>, score: real, sectionScores: map<string, real>)

  const K := 60

  function Share(weight: real, rank: nat): real { weight / (K + rank + 1) as real }

  // ---- the fused scores, as sums over the legs ----

  function HitsScore(weight: real, hits: seq<Hit>, s: string): real {
    if hits == [] then 0.0
    else
      var n := |hits| - 1;
      HitsScore(weight, hits[..n], s) + if hits[n].source == s then Share(weight, n) else 0.0
  }

  function SourceScore(legs: seq<Leg>, s: string): real {
    if legs == [] then 0.0
    else SourceScore(legs[..|legs| - 1], s) + HitsScore(legs[|legs| - 1].weight, legs[|legs| - 1].results, s)
  }

  function ListScore(weight: real, ids: seq<string>, id: string): real {
    if ids == [] then 0.0
    else
      var n := |ids| - 1;
      ListScore(weight, ids[..n], id) + if ids[n] == id then Share(weight, n) else 0.0
  }

  function HitsSection(weight: real, hits: seq<Hit>, s: string, id: string): real {
    if hits == [] then 0.0
    else
      var n := |hits| - 1;
      HitsSection(weight, hits[..n], s, id)
        + if hits[n].source == s then ListScore(weight, hits[n].sections, id) else 0.0
  }

  function SectionScore(legs: seq<Leg>, s: string, id: string): real {
    if legs == [] then 0.0
    else
      SectionScore(legs[..|legs| - 1], s, id) + HitsSection(legs[|legs| - 1].weight, legs[|legs| - 1].results, s, id)
  }

  ghost predicate Lists(legs: seq<Leg>, s: string) {
    exists l, h | l in legs && h in l.results :: h.source == s
  }

  ghost predicate ListsSection(legs: seq<Leg>, s: string, id: string) {
    exists l, h | l in legs && h in l.results :: h.source == s && id in h.sections
  }

  /** The maps the loops fill. */
  datatype Tally = Tally(sources: map<string, real>, sections: map<string, map<string, real>>)

  ghost predicate TalliedSources(t: Tally, legs: seq<Leg>) {
    && (forall s :: s in t.sources <==> Lists(legs, s))
    && forall s | s in t.sources :: t.sources[s] == SourceScore(legs, s)
  }

  ghost predicate TalliedSections(t: Tally, legs: seq<Leg>) {
    && t.sections.Keys == t.sources.Keys
    && (forall s, id | s in t.sections :: id in t.sections[s] <==> ListsSection(legs, s, id))
    && forall s, id | s in t.sections && id in t.sections[s] :: t.sections[s][id] == SectionScore(legs, s, id)
  }

  ghost predicate Tallied(t: Tally, legs: seq<Leg>) { TalliedSources(t, legs) && TalliedSections(t, legs) }

  // ---- filling the maps ----

  /** The loops of mergeResults so far: whole legs, then a leg up to some rank. */
  function UpTo(legs: seq<Leg>, weight: real, hits: seq<Hit>): seq<Leg> { legs + [Leg(weight, hits)] }

  lemma ScoreUpTo(legs: seq<Leg>, weight: real, hits: seq<Hit>, s: string)
    ensures SourceScore(UpTo(legs, weight, hits), s) == SourceScore(legs, s) + HitsScore(weight, hits, s)
  {
    assert UpTo(legs, weight, hits)[..|legs|] == legs;
  }

  lemma SectionUpTo(legs: seq<Leg>, weight: real, hits: seq<Hit>, s: string, id: string)
    ensures SectionScore(UpTo(legs, weight, hits), s, id)
      == SectionScore(legs, s, id) + HitsSection(weight, hits, s, id)
  {
    assert UpTo(legs, weight, hits)[..|legs|] == legs;
  }

  lemma ListsUpTo(legs: seq<Leg>, weight: real, hits: seq<Hit>, hit: Hit, s: string)
    ensures Lists(UpTo(legs, weight, hits + [hit]), s) <==> Lists(UpTo(legs, weight, hits), s) || hit.source == s
  {
    var before, after := UpTo(legs, weight, hits), UpTo(legs, weight, hits + [hit]);
    var l, m := Leg(weight, hits), Leg(weight, hits + [hit]);
    assert before[|legs|] == l && after[|legs|] == m && m.results[|hits|] == hit;
    if k, h :| k in before && h in k.results && h.source == s {
      assert if k in legs then k in after else k == l && h in m.results;
    }
    if k, h :| k in after && h in k.results && h.source == s {
      assert if k in legs then k in before else k == m && (h in l.results || h == hit);
    }
  }

  lemma ListsSectionUpTo(legs: seq<Leg>, weight: real, hits: seq<Hit>, hit: Hit, s: string, id: string)
    ensures ListsSection(UpTo(legs, weight, hits + [hit]), s, id) <==>
      ListsSection(UpTo(legs, weight, hits), s, id) || (hit.source == s && id in hit.sections)
  {
    var before, after := UpTo(legs, weight, hits), UpTo(legs, weight, hits + [hit]);
    var l, m := Leg(weight, hits), Leg(weight, hits + [hit]);
    assert before[|legs|] == l && after[|legs|] == m && m.results[|hits|] == hit;
    if k, h :| k in before && h in k.results && h.source == s && id in h.sections {
      assert if k in legs then k in after else k == l && h in m.results;
    }
    if k, h :| k in after && h in k.results && h.source == s && id in h.sections {
      assert if k in legs then k in before else k == m && (h in l.results || h == hit);
    }
  }

  /** The inner loop: the sections of one entry add to their scores. */
  method AddSections(was: map<string, real>, weight: real, ids: seq<string>) returns (m: map<string, real>)
    ensures forall id :: id in m <==> id in was || id in ids
    ensures forall id | id in m :: m[id] == (if id in was then was[id] else 0.0) + ListScore(weight, ids, id)
  {
    m := was;
    for n := 0 to |ids|
      invariant forall id :: id in m <==> id in was || id in ids[..n]
      invariant forall id | id in m :: m[id] == (if id in was then was[id] else 0.0) + ListScore(weight, ids[..n], id)
    {
      assert ids[..n + 1][..n] == ids[..n];
      var id := ids[n];
      if id !in m { NotListed(weight, ids[..n], id); }
      m := m[id := (if id in m then m[id] else 0.0) + weight / (K + n + 1) as real];
    }
    assert ids[..|ids|] == ids;
  }

  lemma {:induction false} NotListed(weight: real, ids: seq<string>, id: string)
    requires id !in ids
    ensures ListScore(weight, ids, id) == 0.0
  {
    if ids != [] { NotListed(weight, ids[..|ids| - 1], id); }
  }

  lemma {:induction false} NotHit(weight: real, hits: seq<Hit>, s: string)
    requires forall h | h in hits :: h.source != s
    ensures HitsScore(weight, hits, s) == 0.0
    ensures forall id :: HitsSection(weight, hits, s, id) == 0.0
  {
    if hits != [] { NotHit(weight, hits[..|hits| - 1], s); }
  }

  lemma {:induction false} NotScored(legs: seq<Leg>, s: string)
    requires !Lists(legs, s)
    ensures SourceScore(legs, s) == 0.0
    ensures forall id :: SectionScore(legs, s, id) == 0.0
  {
    if legs != [] {
      var n := |legs| - 1;
      assert legs[n] in legs;
      forall h | h in legs[n].results ensures h.source != s { assert legs[n] in legs; }
      NotHit(legs[n].weight, legs[n].results, s);
      assert !Lists(legs[..n], s) by { assert forall l | l in legs[..n] :: l in legs; }
      NotScored(legs[..n], s);
    }
  }

  lemma {:induction false} NotHitSection(weight: real, hits: seq<Hit>, s: string, id: string)
    requires forall h | h in hits && h.source == s :: id !in h.sections
    ensures HitsSection(weight, hits, s, id) == 0.0
  {
    if hits != [] {
      var n := |hits| - 1;
      NotHitSection(weight, hits[..n], s, id);
      if hits[n].source == s { NotListed(weight, hits[n].sections, id); }
    }
  }

  lemma {:induction false} NotScoredSection(legs: seq<Leg>, s: string, id: string)
    requires !ListsSection(legs, s, id)
    ensures SectionScore(legs, s, id) == 0.0
  {
    if legs != [] {
      var n := |legs| - 1;
      assert legs[n] in legs;
      forall h | h in legs[n].results && h.source == s ensures id !in h.sections { assert legs[n] in legs; }
      NotHitSection(legs[n].weight, legs[n].results, s, id);
      assert !ListsSection(legs[..n], s, id) by { assert forall l | l in legs[..n] :: l in legs; }
      NotScoredSection(legs[..n], s, id);
    }
  }

  lemma SectionOfSource(legs: seq<Leg>, s: string, id: string)
    ensures ListsSection(legs, s, id) ==> Lists(legs, s)
  {
    if l, h :| l in legs && h in l.results && h.source == s && id in h.sections {
      assert l in legs && h in l.results && h.source == s;
    }
  }

  /** One entry of a leg, at its rank. */
  method AddHit(was: Tally, weight: real, rank: nat, hit: Hit, ghost legs: seq<Leg>, ghost hits: seq<Hit>)
    returns (t: Tally)
    requires rank == |hits| && Tallied(was, UpTo(legs, weight, hits))
    ensures Tallied(t, UpTo(legs, weight, hits + [hit]))
  {
    var s := hit.source;
    var sources := was.sources[s :=
      (if s in was.sources then was.sources[s] else 0.0) + weight / (K + rank + 1) as real];
    var sections := AddSections(if s in was.sections then was.sections[s] else map[], weight, hit.sections);
    t := Tally(sources, was.sections[s := sections]);
    HitSources(was, t, weight, hit, legs, hits);
    hide TalliedSources, SectionScore, ListsSection, ListScore;
    forall x, id | x in t.sections
      ensures (id in t.sections[x] <==> ListsSection(UpTo(legs, weight, hits + [hit]), x, id))
        && (id in t.sections[x] ==> t.sections[x][id] == SectionScore(UpTo(legs, weight, hits + [hit]), x, id))
    {
      HitSection(was, t, weight, hit, legs, hits, x, id);
    }
  }

  lemma HitSources(was: Tally, t: Tally, weight: real, hit: Hit, legs: seq<Leg>, hits: seq<Hit>)
    requires TalliedSources(was, UpTo(legs, weight, hits))
    requires var s := hit.source;
      t.sources == was.sources[s := (if s in was.sources then was.sources[s] else 0.0) + Share(weight, |hits|)]
    ensures TalliedSources(t, UpTo(legs, weight, hits + [hit]))
  {
    var before, after := UpTo(legs, weight, hits), UpTo(legs, weight, hits + [hit]);
    assert (hits + [hit])[..|hits|] == hits;
    forall s ensures s in t.sources <==> Lists(after, s) { ListsUpTo(legs, weight, hits, hit, s); }
    forall s | s in t.sources ensures t.sources[s] == SourceScore(after, s) {
      ScoreUpTo(legs, weight, hits, s);
      ScoreUpTo(legs, weight, hits + [hit], s);
      if s !in was.sources { NotScored(before, s); }
    }
  }

  lemma HitSection(was: Tally, t: Tally, weight: real, hit: Hit, legs: seq<Leg>, hits: seq<Hit>, x: string, id: string)
    requires TalliedSources(was, UpTo(legs, weight, hits)) && TalliedSections(was, UpTo(legs, weight, hits))
    requires x in t.sections && t.sections.Keys == was.sections.Keys + {hit.source}
    requires x != hit.source ==> t.sections[x] == was.sections[x]
    requires x == hit.source ==>
      var prior := if x in was.sections then was.sections[x] else map[];
      && (id in t.sections[x] <==> id in prior || id in hit.sections)
      && (id in t.sections[x] ==>
          t.sections[x][id] == (if id in prior then prior[id] else 0.0) + ListScore(weight, hit.sections, id))
    ensures id in t.sections[x] <==> ListsSection(UpTo(legs, weight, hits + [hit]), x, id)
    ensures id in t.sections[x] ==> t.sections[x][id] == SectionScore(UpTo(legs, weight, hits + [hit]), x, id)
  {
    var before, after := UpTo(legs, weight, hits), UpTo(legs, weight, hits + [hit]);
    assert (hits + [hit])[..|hits|] == hits;
    ListsSectionUpTo(legs, weight, hits, hit, x, id);
    SectionUpTo(legs, weight, hits, x, id);
    SectionUpTo(legs, weight, hits + [hit], x, id);
    if x !in was.sections {
      SectionOfSource(before, x, id);
    }
    if !ListsSection(before, x, id) { NotScoredSection(before, x, id); }
  }

  method TallyLegs(legs: seq<Leg>) returns (t: Tally)
    ensures Tallied(t, legs)
  {
    t := Tally(map[], map[]);
    for i := 0 to |legs|
      invariant Tallied(t, legs[..i])
    {
      NoHitsYet(t, legs[..i], legs[i].weight);
      var hits := legs[i].results;
      for rank := 0 to |hits|
        invariant Tallied(t, UpTo(legs[..i], legs[i].weight, hits[..rank]))
      {
        assert hits[..rank] + [hits[rank]] == hits[..rank + 1];
        t := AddHit(t, legs[i].weight, rank, hits[rank], legs[..i], hits[..rank]);
      }
      assert hits[..|hits|] == hits;
      assert UpTo(legs[..i], legs[i].weight, hits) == legs[..i + 1];
    }
    assert legs[..|legs|] == legs;
  }

  lemma NoHitsYet(t: Tally, legs: seq<Leg>, weight: real)
    requires Tallied(t, legs)
    ensures Tallied(t, UpTo(legs, weight, []))
  {
    var more := UpTo(legs, weight, []);
    assert more[|legs|] == Leg(weight, []);
    assert forall l :: l in more <==> l in legs || l == Leg(weight, []);
    forall s ensures Lists(more, s) <==> Lists(legs, s) {}
    forall s, id ensures ListsSection(more, s, id) <==> ListsSection(legs, s, id) {}
    forall s ensures SourceScore(more, s) == SourceScore(legs, s) { ScoreUpTo(legs, weight, [], s); }
    forall s, id
      ensures SectionScore(more, s, id) == SectionScore(legs, s, id)
    {
      SectionUpTo(legs, weight, [], s, id);
    }
  }

  // ---- ordering ----

  function ScoreIn(m: map<string, real>, k: string): real { if k in m then m[k] else 0.0 }

  /** By score, the highest first, then by name. */
  predicate Before(m: map<string, real>, a: string, b: string) {
    ScoreIn(m, a) > ScoreIn(m, b) || (ScoreIn(m, a) == ScoreIn(m, b) && TextLe(a, b))
  }

  /** ks are the keys of m, each once, in order. */
  ghost predicate Ranking(ks: seq<string>, m: map<string, real>) {
    && multiset(ks) == multiset(m.Keys)
    && forall i, j | 0 <= i < j < |ks| :: Before(m, ks[i], ks[j])
  }

  lemma BeforeOrder(m: map<string, real>)
    ensures Total((a, b) => Before(m, a, b)) && Antisymmetric((a, b) => Before(m, a, b))
  {
    TextOrder();
  }

  /** slices.SortFunc over the keys of a map, which come in no particular order. */
  method RankKeys(m: map<string, real>) returns (ks: seq<string>)
    ensures Ranking(ks, m)
  {
    ks := [];
    var rest := m.Keys;
    while rest != {}
      invariant rest <= m.Keys && multiset(ks) + multiset(rest) == multiset(m.Keys)
      decreases |rest|
    {
      var k :| k in rest;
      ks := ks + [k];
      rest := rest - {k};
    }
    BeforeOrder(m);
    SortCorrect((a, b) => Before(m, a, b), ks);
    ks := Sort((a, b) => Before(m, a, b), ks);
  }

  lemma RankingUnique(a: seq<string>, b: seq<string>, m: map<string, real>)
    requires Ranking(a, m) && Ranking(b, m)
    ensures a == b
  {
    BeforeOrder(m);
    SortedUnique((x, y) => Before(m, x, y), a, b);
  }

  // ---- the merge ----

  ghost predicate IsEntry(e: Merged, t: Tally) {
    && e.source in t.sources && e.source in t.sections
    && e.score == t.sources[e.source] && e.sectionScores == t.sections[e.source] && Ranking(e.sections, e.sectionScores)
  }

  /** The fusion of the tallied legs: the first maxResults sources, all of them when it is not positive. */
  ghost predicate IsFusion(out: seq<Merged>, t: Tally, maxResults: int) {
    exists ks :: Ranking(ks, t.sources)
      && |out| == (if 0 < maxResults < |ks| then maxResults else |ks|)
      && forall i | 0 <= i < |out| :: out[i].source == ks[i] && IsEntry(out[i], t)
  }

  ghost predicate IsMerge(out: seq<Merged>, legs: seq<Leg>, maxResults: int) {
    exists t :: Tallied(t, legs) && IsFusion(out, t, maxResults)
  }

  /** parses tells whether the text of a source reads back as a URL. None is an error: one of the sources listed,
      returned or cut off, does not. */
  method MergeResults(legs: seq<Leg>, maxResults: int, parses: string -> bool) returns (merged: Option<seq<Merged>>)
    ensures merged.Some? <==> forall s | Lists(legs, s) :: parses(s)
    ensures merged.Some? ==> IsMerge(merged.value, legs, maxResults)
  {
    var t := TallyLegs(legs);
    merged := Assemble(t, maxResults, parses);
    hide IsFusion, Lists;
    if merged.Some? { assert Tallied(t, legs) && IsFusion(merged.value, t, maxResults); }
  }

  method Assemble(t: Tally, maxResults: int, parses: string -> bool) returns (merged: Option<seq<Merged>>)
    requires t.sections.Keys == t.sources.Keys
    ensures merged.Some? <==> forall s | s in t.sources :: parses(s)
    ensures merged.Some? ==> IsFusion(merged.value, t, maxResults)
  {
    hide Ranking, IsEntry;
    var ks := RankKeys(t.sources);
    RankedKeys(ks, t.sources);
    var entries := Entries(t, ks, parses);
    if entries.None? { return None; }
    var es := entries.value;
    if maxResults > 0 && |es| > maxResults { es := es[..maxResults]; }
    merged := Some(es);
  }

  lemma RankedKeys(ks: seq<string>, m: map<string, real>)
    requires Ranking(ks, m)
    ensures forall k :: k in m <==> k in ks
  {
    assert forall k :: k in ks <==> k in multiset(ks);
  }

  method Entries(t: Tally, ks: seq<string>, parses: string -> bool) returns (entries: Option<seq<Merged>>)
    requires t.sections.Keys == t.sources.Keys && forall k | k in ks :: k in t.sources
    ensures entries.Some? <==> forall k | k in ks :: parses(k)
    ensures entries.Some? ==>
      |entries.value| == |ks|
      && forall i | 0 <= i < |ks| :: entries.value[i].source == ks[i] && IsEntry(entries.value[i], t)
  {
    hide Ranking;
    var es: seq<Merged> := [];
    for i := 0 to |ks|
      invariant |es| == i && forall j | 0 <= j < i :: parses(ks[j]) && es[j].source == ks[j] && IsEntry(es[j], t)
    {
      var k := ks[i];
      assert k in ks;
      if !parses(k) { return None; }
      var ids := RankKeys(t.sections[k]);
      es := es + [Merged(k, ids, t.sources[k], t.sections[k])];
    }
    entries := Some(es);
  }

  // ---- the order of the legs ----

  function SumOf(f: Leg -> real, legs: seq<Leg>): real {
    if legs == [] then 0.0 else SumOf(f, legs[..|legs| - 1]) + f(legs[|legs| - 1])
  }

  lemma {:induction false} ScoreIsSum(legs: seq<Leg>, s: string)
    ensures SourceScore(legs, s) == SumOf((l: Leg) => HitsScore(l.weight, l.results, s), legs)
  {
    if legs != [] { ScoreIsSum(legs[..|legs| - 1], s); }
  }

  lemma {:induction false} SectionIsSum(legs: seq<Leg>, s: string, id: string)
    ensures SectionScore(legs, s, id) == SumOf((l: Leg) => HitsSection(l.weight, l.results, s, id), legs)
  {
    if legs != [] { SectionIsSum(legs[..|legs| - 1], s, id); }
  }

  lemma {:induction false} SumTakeOut(f: Leg -> real, legs: seq<Leg>, j: nat)
    requires j < |legs|
    ensures SumOf(f, legs) == SumOf(f, legs[..j] + legs[j + 1..]) + f(legs[j])
  {
    var n := |legs| - 1;
    var rest := legs[..j] + legs[j + 1..];
    if j == n {
      assert rest == legs[..n];
    } else {
      SumTakeOut(f, legs[..n], j);
      assert legs[..n][..j] + legs[..n][j + 1..] == rest[..n - 1];
      assert rest[n - 1] == legs[n];
    }
  }

  /** A sum does not depend on the order of its terms. */
  lemma {:induction false} SumPermutes(f: Leg -> real, a: seq<Leg>, b: seq<Leg>)
    requires multiset(a) == multiset(b)
    ensures SumOf(f, a) == SumOf(f, b)
  {
    assert |a| == |multiset(a)| == |b|;
    if a != [] {
      var n := |a| - 1;
      assert a[n] in multiset(b);
      var j :| 0 <= j < |b| && b[j] == a[n];
      SumTakeOut(f, b, j);
      SameRest(a, b, j);
      SumPermutes(f, a[..n], b[..j] + b[j + 1..]);
    }
  }

  lemma SameRest(a: seq<Leg>, b: seq<Leg>, j: nat)
    requires multiset(a) == multiset(b) && a != [] && j < |b| && b[j] == a[|a| - 1]
    ensures multiset(a[..|a| - 1]) == multiset(b[..j] + b[j + 1..])
  {
    var n := |a| - 1;
    TakeOut(a, n);
    TakeOut(b, j);
    var front, rest := a[..n], b[..j] + b[j + 1..];
    assert a[..n] + a[n + 1..] == front;
    assert multiset(front) == multiset(a) - multiset{a[n]} == multiset(rest);
  }

  /** Legs that list and score alike fill the same maps. */
  lemma TallyUnique(t: Tally, u: Tally, a: seq<Leg>, b: seq<Leg>)
    requires Tallied(t, a) && Tallied(u, b)
    requires forall s :: (Lists(a, s) <==> Lists(b, s)) && SourceScore(a, s) == SourceScore(b, s)
    requires forall s, id ::
      (ListsSection(a, s, id) <==> ListsSection(b, s, id)) && SectionScore(a, s, id) == SectionScore(b, s, id)
    ensures t == u
  {
    assert t.sources == u.sources;
    forall s | s in t.sections ensures t.sections[s] == u.sections[s] { SameSections(t, u, a, b, s); }
    assert t.sections == u.sections;
  }

  lemma TallyForgetsOrder(t: Tally, u: Tally, a: seq<Leg>, b: seq<Leg>)
    requires multiset(a) == multiset(b) && Tallied(t, a) && Tallied(u, b)
    ensures t == u
  {
    assert forall l :: l in a <==> l in multiset(a);
    assert forall l :: l in b <==> l in multiset(b);
    forall s ensures Lists(a, s) <==> Lists(b, s) {}
    forall s, id ensures ListsSection(a, s, id) <==> ListsSection(b, s, id) {}
    forall s ensures SourceScore(a, s) == SourceScore(b, s) {
      ScoreIsSum(a, s);
      ScoreIsSum(b, s);
      SumPermutes((l: Leg) => HitsScore(l.weight, l.results, s), a, b);
    }
    forall s, id ensures SectionScore(a, s, id) == SectionScore(b, s, id) {
      SectionIsSum(a, s, id);
      SectionIsSum(b, s, id);
      SumPermutes((l: Leg) => HitsSection(l.weight, l.results, s, id), a, b);
    }
    TallyUnique(t, u, a, b);
  }

  lemma SameSections(t: Tally, u: Tally, a: seq<Leg>, b: seq<Leg>, s: string)
    requires Tallied(t, a) && Tallied(u, b) && s in t.sections && s in u.sections
    requires forall id :: ListsSection(a, s, id) <==> ListsSection(b, s, id)
    requires forall id :: SectionScore(a, s, id) == SectionScore(b, s, id)
    ensures t.sections[s] == u.sections[s]
  {
    hide ListsSection, SectionScore;
    forall id ensures id in t.sections[s] <==> id in u.sections[s] {}
  }

  lemma EntryUnique(x: Merged, y: Merged, t: Tally)
    requires IsEntry(x, t) && IsEntry(y, t) && x.source == y.source
    ensures x == y
  {
    RankingUnique(x.sections, y.sections, x.sectionScores);
  }

  /** The fusion does not depend on the order in which the legs answer, nor on the order in which maps are walked. */
  lemma MergeForgetsOrder(x: seq<Merged>, y: seq<Merged>, a: seq<Leg>, b: seq<Leg>, maxResults: int)
    requires multiset(a) == multiset(b) && IsMerge(x, a, maxResults) && IsMerge(y, b, maxResults)
    ensures x == y
  {
    var t :| Tallied(t, a) && IsFusion(x, t, maxResults);
    var u :| Tallied(u, b) && IsFusion(y, u, maxResults);
    TallyForgetsOrder(t, u, a, b);
    hide Tallied;
    FusionUnique(x, y, t, maxResults);
  }

  lemma FusionUnique(x: seq<Merged>, y: seq<Merged>, t: Tally, maxResults: int)
    requires IsFusion(x, t, maxResults) && IsFusion(y, t, maxResults)
    ensures x == y
  {
    hide IsEntry, Ranking;
    var ks :| Ranking(ks, t.sources) && |x| == (if 0 < maxResults < |ks| then maxResults else |ks|)
      && forall i | 0 <= i < |x| :: x[i].source == ks[i] && IsEntry(x[i], t);
    var ls :| Ranking(ls, t.sources) && |y| == (if 0 < maxResults < |ls| then maxResults else |ls|)
      && forall i | 0 <= i < |y| :: y[i].source == ls[i] && IsEntry(y[i], t);
    RankingUnique(ks, ls, t.sources);
    forall i | 0 <= i < |x| ensures x[i] == y[i] { EntryUnique(x[i], y[i], t); }
  }

  // ---- the top of the union ----

  /** s comes before r in the fused order. */
  predicate Outranks(legs: seq<Leg>, s: string, r: string) {
    SourceScore(legs, s) > SourceScore(legs, r) || (SourceScore(legs, s) == SourceScore(legs, r) && TextLe(s, r))
  }

  /** The fusion lists the highest sources of the union: in order, with their fused scores, and nothing left out
      that a listed source does not outrank. */
  lemma MergeIsTop(out: seq<Merged>, legs: seq<Leg>, maxResults: int)
    requires IsMerge(out, legs, maxResults)
    ensures forall i | 0 <= i < |out| :: Lists(legs, out[i].source) && out[i].score == SourceScore(legs, out[i].source)
    ensures forall i, j | 0 <= i < j < |out| ::
      out[i].source != out[j].source && Outranks(legs, out[i].source, out[j].source)
    ensures forall i, s | 0 <= i < |out| && Lists(legs, s) && (forall j | 0 <= j < |out| :: out[j].source != s) ::
      Outranks(legs, out[i].source, s)
    ensures maxResults > 0 ==> |out| <= maxResults
    ensures maxResults <= 0 || |out| < maxResults ==>
      forall s | Lists(legs, s) :: exists i | 0 <= i < |out| :: out[i].source == s
  {
    var ks := MergeLists(out, legs, maxResults);
    hide IsMerge, Lists, SourceScore, Outranks;
    forall s | Lists(legs, s) ensures exists q | 0 <= q < |ks| :: ks[q] == s { assert s in ks; }
    forall i, s | 0 <= i < |out| && Lists(legs, s) && (forall j | 0 <= j < |out| :: out[j].source != s)
      ensures Outranks(legs, out[i].source, s)
    {
      var q :| 0 <= q < |ks| && ks[q] == s;
      assert q >= |out|;
    }
  }

  /** ks are all the sources in order, of which the fusion is the beginning. */
  lemma MergeLists(out: seq<Merged>, legs: seq<Leg>, maxResults: int) returns (ks: seq<string>)
    requires IsMerge(out, legs, maxResults)
    ensures |out| == (if 0 < maxResults < |ks| then maxResults else |ks|)
    ensures forall i | 0 <= i < |out| :: out[i].source == ks[i] && out[i].score == SourceScore(legs, ks[i])
    ensures forall s :: Lists(legs, s) <==> s in ks
    ensures forall i, j | 0 <= i < j < |ks| :: ks[i] != ks[j] && Outranks(legs, ks[i], ks[j])
  {
    hide Lists, SourceScore, Ranking, Outranks, TalliedSections;
    var t :| Tallied(t, legs) && IsFusion(out, t, maxResults);
    ks :| Ranking(ks, t.sources) && |out| == (if 0 < maxResults < |ks| then maxResults else |ks|)
      && forall i | 0 <= i < |out| :: out[i].source == ks[i] && IsEntry(out[i], t);
    RankedSources(ks, t, legs);
  }

  lemma RankedSources(ks: seq<string>, t: Tally, legs: seq<Leg>)
    requires TalliedSources(t, legs) && Ranking(ks, t.sources)
    ensures forall s :: Lists(legs, s) <==> s in ks
    ensures forall i, j | 0 <= i < j < |ks| :: ks[i] != ks[j] && Outranks(legs, ks[i], ks[j])
  {
    KeysOnce(ks, t.sources);
    hide Lists, SourceScore, TextLe;
    forall i, j | 0 <= i < j < |ks| ensures ks[i] != ks[j] && Outranks(legs, ks[i], ks[j]) {
      assert ks[i] in t.sources && ks[j] in t.sources;
      assert Before(t.sources, ks[i], ks[j]);
    }
  }

  lemma KeysOnce(ks: seq<string>, m: map<string, real>)
    requires multiset(ks) == multiset(m.Keys)
    ensures forall i, j | 0 <= i < j < |ks| :: ks[i] != ks[j]
    ensures forall k :: k in m <==> k in ks
  {
    forall i, j | 0 <= i < j < |ks| ensures ks[i] != ks[j] {
      Twice(ks, i, j);
      assert multiset(m.Keys)[ks[i]] <= 1;
    }
    forall k ensures k in m <==> k in ks { assert k in multiset(ks) <==> k in multiset(m.Keys); }
  }

  // ---- dominance ----

  /** The leg lists b at most once, and a before it if it does. */
  ghost predicate Prefers(leg: Leg, a: string, b: string) {
    forall j | 0 <= j < |leg.results| && leg.results[j].source == b ::
      && (exists i | 0 <= i < j :: leg.results[i].source == a)
      && forall k | 0 <= k < |leg.results| && leg.results[k].source == b :: k == j
  }

  lemma ShareFalls(weight: real, i: nat, j: nat)
    requires weight > 0.0 && i < j
    ensures Share(weight, i) > Share(weight, j) > 0.0
  {
    var x, y := (K + i + 1) as real, (K + j + 1) as real;
    assert weight * y > weight * x;
    assert weight / x == (weight * y) / (x * y) && weight / y == (weight * x) / (x * y);
  }

  lemma {:induction false} HitsScoreAtLeast(weight: real, hits: seq<Hit>, a: string)
    requires weight > 0.0
    ensures HitsScore(weight, hits, a) >= 0.0
    ensures forall i | 0 <= i < |hits| && hits[i].source == a :: HitsScore(weight, hits, a) >= Share(weight, i)
  {
    if hits != [] {
      var n := |hits| - 1;
      HitsScoreAtLeast(weight, hits[..n], a);
      ShareFalls(weight, n, n + 1);
      forall i | 0 <= i < |hits| && hits[i].source == a ensures HitsScore(weight, hits, a) >= Share(weight, i) {
        if i < n { assert hits[..n][i].source == a; }
      }
    }
  }

  lemma {:induction false} HitsScoreOnce(weight: real, hits: seq<Hit>, b: string, j: nat)
    requires j < |hits| && hits[j].source == b && forall k | 0 <= k < |hits| && hits[k].source == b :: k == j
    ensures HitsScore(weight, hits, b) == Share(weight, j)
  {
    var n := |hits| - 1;
    if j == n {
      forall h | h in hits[..n] ensures h.source != b {
        var k :| 0 <= k < n && hits[..n][k] == h;
        assert hits[k] == h;
      }
      NotHit(weight, hits[..n], b);
    } else {
      HitsScoreOnce(weight, hits[..n], b, j);
    }
  }

  lemma LegPrefers(leg: Leg, a: string, b: string)
    requires leg.weight > 0.0 && Prefers(leg, a, b)
    ensures HitsScore(leg.weight, leg.results, a) >= HitsScore(leg.weight, leg.results, b)
    ensures (exists h | h in leg.results :: h.source == b) ==>
      HitsScore(leg.weight, leg.results, a) > HitsScore(leg.weight, leg.results, b)
  {
    HitsScoreAtLeast(leg.weight, leg.results, a);
    if j :| 0 <= j < |leg.results| && leg.results[j].source == b {
      HitsScoreOnce(leg.weight, leg.results, b, j);
      var i :| 0 <= i < j && leg.results[i].source == a;
      ShareFalls(leg.weight, i, j);
    } else {
      NotHit(leg.weight, leg.results, b);
    }
  }

  lemma {:induction false} LegsPrefer(legs: seq<Leg>, a: string, b: string)
    requires forall l | l in legs :: l.weight > 0.0 && Prefers(l, a, b)
    ensures SourceScore(legs, a) >= SourceScore(legs, b)
    ensures Lists(legs, b) ==> SourceScore(legs, a) > SourceScore(legs, b)
  {
    if legs != [] {
      var n := |legs| - 1;
      assert legs[n] in legs;
      LegPrefers(legs[n], a, b);
      LegsPrefer(legs[..n], a, b);
      if Lists(legs, b) && !Lists(legs[..n], b) { LastLists(legs, b); }
    }
  }

  lemma LastLists(legs: seq<Leg>, b: string)
    requires legs != [] && Lists(legs, b) && !Lists(legs[..|legs| - 1], b)
    ensures exists h | h in legs[|legs| - 1].results :: h.source == b
  {
    var n := |legs| - 1;
    assert legs == legs[..n] + [legs[n]];
    var l, h :| l in legs && h in l.results && h.source == b;
    assert l !in legs[..n];
  }

  lemma PreferredIsListed(legs: seq<Leg>, a: string, b: string)
    requires Lists(legs, b) && forall l | l in legs :: Prefers(l, a, b)
    ensures Lists(legs, a)
  {
    var l, h :| l in legs && h in l.results && h.source == b;
    var j :| 0 <= j < |l.results| && l.results[j] == h;
    var i :| 0 <= i < j && l.results[i].source == a;
    assert l.results[i] in l.results;
  }

  /** A source that every leg ranks above another, where it lists the other, is above it in the fusion. */
  lemma MergeKeepsConsensus(out: seq<Merged>, legs: seq<Leg>, maxResults: int, a: string, b: string, q: nat)
    requires IsMerge(out, legs, maxResults) && forall l | l in legs :: l.weight > 0.0 && Prefers(l, a, b)
    requires q < |out| && out[q].source == b
    ensures exists p | 0 <= p < q :: out[p].source == a && out[p].score > out[q].score
  {
    hide IsMerge, Lists, SourceScore, Prefers;
    MergeIsTop(out, legs, maxResults);
    LegsPrefer(legs, a, b);
    PreferredIsListed(legs, a, b);
    assert !Outranks(legs, b, a);
    hide Outranks;
    assert exists p | 0 <= p < |out| :: out[p].source == a;
    var p :| 0 <= p < |out| && out[p].source == a;
    assert p != q && !(q < p);
  }

  // ---- what a weight and a rank are worth ----

  lemma ShareAdds(v: real, w: real, rank: nat)
    ensures Share(v + w, rank) == Share(v, rank) + Share(w, rank)
  {
  }

  lemma {:induction false} HitsScoreAdds(v: real, w: real, hits: seq<Hit>, s: string)
    ensures HitsScore(v + w, hits, s) == HitsScore(v, hits, s) + HitsScore(w, hits, s)
  {
    if hits != [] {
      HitsScoreAdds(v, w, hits[..|hits| - 1], s);
      ShareAdds(v, w, |hits| - 1);
      hide Share;
    }
  }

  lemma {:induction false} ListScoreAdds(v: real, w: real, ids: seq<string>, id: string)
    ensures ListScore(v + w, ids, id) == ListScore(v, ids, id) + ListScore(w, ids, id)
  {
    if ids != [] {
      ListScoreAdds(v, w, ids[..|ids| - 1], id);
      ShareAdds(v, w, |ids| - 1);
      hide Share;
    }
  }

  lemma {:induction false} HitsSectionAdds(v: real, w: real, hits: seq<Hit>, s: string, id: string)
    ensures HitsSection(v + w, hits, s, id) == HitsSection(v, hits, s, id) + HitsSection(w, hits, s, id)
  {
    if hits != [] {
      HitsSectionAdds(v, w, hits[..|hits| - 1], s, id);
      ListScoreAdds(v, w, hits[|hits| - 1].sections, id);
    }
  }

  lemma ListsMore(legs: seq<Leg>, weight: real, hits: seq<Hit>, s: string, id: string)
    ensures Lists(UpTo(legs, weight, hits), s) <==> Lists(legs, s) || exists h | h in hits :: h.source == s
    ensures ListsSection(UpTo(legs, weight, hits), s, id) <==>
      ListsSection(legs, s, id) || exists h | h in hits :: h.source == s && id in h.sections
  {
    var more := UpTo(legs, weight, hits);
    assert more[|legs|] == Leg(weight, hits);
    assert forall l :: l in more <==> l in legs || l == Leg(weight, hits);
    assert Leg(weight, hits).results == hits;
  }

  lemma WeightsAdd(legs: seq<Leg>, v: real, w: real, hits: seq<Hit>, s: string, id: string)
    ensures var one, two := UpTo(legs, v + w, hits), UpTo(UpTo(legs, v, hits), w, hits);
      && (Lists(one, s) <==> Lists(two, s)) && (ListsSection(one, s, id) <==> ListsSection(two, s, id))
      && SourceScore(one, s) == SourceScore(two, s) && SectionScore(one, s, id) == SectionScore(two, s, id)
  {
    hide UpTo, Lists, ListsSection, SourceScore, SectionScore, HitsScore, HitsSection;
    var first := UpTo(legs, v, hits);
    ListsMore(legs, v + w, hits, s, id);
    ListsMore(legs, v, hits, s, id);
    ListsMore(first, w, hits, s, id);
    ScoreUpTo(legs, v + w, hits, s);
    ScoreUpTo(legs, v, hits, s);
    ScoreUpTo(first, w, hits, s);
    HitsScoreAdds(v, w, hits, s);
    SectionUpTo(legs, v + w, hits, s, id);
    SectionUpTo(legs, v, hits, s, id);
    SectionUpTo(first, w, hits, s, id);
    HitsSectionAdds(v, w, hits, s, id);
  }

  /** A leg counts by its weight: one of weight v + w fuses as two legs of weights v and w with the same list do. */
  lemma MergeAddsWeights(
    x: seq<Merged>, y: seq<Merged>, legs: seq<Leg>, v: real, w: real, hits: seq<Hit>, maxResults: int)
    requires IsMerge(x, UpTo(legs, v + w, hits), maxResults)
    requires IsMerge(y, UpTo(UpTo(legs, v, hits), w, hits), maxResults)
    ensures x == y
  {
    hide Tallied, IsFusion, UpTo, Lists, ListsSection, SourceScore, SectionScore;
    var one, two := UpTo(legs, v + w, hits), UpTo(UpTo(legs, v, hits), w, hits);
    var t :| Tallied(t, one) && IsFusion(x, t, maxResults);
    var u :| Tallied(u, two) && IsFusion(y, u, maxResults);
    forall s, id
      ensures (Lists(one, s) <==> Lists(two, s)) && SourceScore(one, s) == SourceScore(two, s)
      ensures (ListsSection(one, s, id) <==> ListsSection(two, s, id))
        && SectionScore(one, s, id) == SectionScore(two, s, id)
    {
      WeightsAdd(legs, v, w, hits, s, id);
    }
    forall s ensures (Lists(one, s) <==> Lists(two, s)) && SourceScore(one, s) == SourceScore(two, s) {
      WeightsAdd(legs, v, w, hits, s, "");
    }
    TallyUnique(t, u, one, two);
    FusionUnique(x, y, t, maxResults);
  }

  /** The list has s at rank p, and only there. */
  ghost predicate RankedAt(hits: seq<Hit>, s: string, p: nat) {
    p < |hits| && hits[p].source == s && forall k | 0 <= k < |hits| && hits[k].source == s :: k == p
  }

  ghost predicate Unranked(hits: seq<Hit>, s: string) { forall h | h in hits :: h.source != s }

  lemma TwoShares(w: real, p: nat, q: nat, o: nat)
    requires w > 0.0
    ensures Share(w, p) + Share(w, q) > Share(w, o) <==> (61 + p) * (61 + q) < (61 + o) * (122 + p + q)
  {
    var x, y, z := (61 + p) as real, (61 + q) as real, (61 + o) as real;
    Fractions(w, x, y, z);
    assert x * y == ((61 + p) * (61 + q)) as real;
    assert z * (x + y) == ((61 + o) * (122 + p + q)) as real;
  }

  lemma Fractions(w: real, x: real, y: real, z: real)
    requires w > 0.0 && x > 0.0 && y > 0.0 && z > 0.0
    ensures w / x + w / y > w / z <==> x * y < z * (x + y)
  {
    var a, b, c := w / x, w / y, w / z;
    assert a * x == w && b * y == w && c * z == w;
    assert (a + b) * (x * y * z) == w * (z * (x + y));
    assert c * (x * y * z) == w * (x * y);
    assert x * y * z > 0.0;
    if a + b > c { assert w * (z * (x + y)) > w * (x * y); }
    if a + b <= c { assert w * (z * (x + y)) <= w * (x * y); }
  }

  /** When a source that two legs of equal weight list beats one that only one of them lists; even the first entry of a
      leg is beaten by a source that both have at one rank among their first 61. */
  lemma TwoListingsBeatOne(w: real, a: seq<Hit>, b: seq<Hit>, s: string, p: nat, q: nat, r: string, o: nat)
    requires w > 0.0 && RankedAt(a, s, p) && RankedAt(b, s, q) && RankedAt(a, r, o) && Unranked(b, r)
    ensures SourceScore([Leg(w, a), Leg(w, b)], s) > SourceScore([Leg(w, a), Leg(w, b)], r) <==>
      (61 + p) * (61 + q) < (61 + o) * (122 + p + q)
    ensures p == q && o == 0 ==> ((61 + p) * (61 + q) < (61 + o) * (122 + p + q) <==> p < 61)
  {
    HitsScoreOnce(w, a, s, p);
    HitsScoreOnce(w, b, s, q);
    HitsScoreOnce(w, a, r, o);
    NotHit(w, b, r);
    TwoShares(w, p, q, o);
    hide HitsScore, Share, RankedAt, Unranked, UpTo, SourceScore;
    TwoLegs(w, a, b, s);
    TwoLegs(w, a, b, r);
    SameRanks(p, q, o);
  }

  lemma TwoLegs(w: real, a: seq<Hit>, b: seq<Hit>, s: string)
    ensures SourceScore([Leg(w, a), Leg(w, b)], s) == HitsScore(w, a, s) + HitsScore(w, b, s)
  {
    assert UpTo(UpTo([], w, a), w, b) == [Leg(w, a), Leg(w, b)];
    ScoreUpTo([], w, a, s);
    ScoreUpTo(UpTo([], w, a), w, b, s);
  }

  lemma SameRanks(p: nat, q: nat, o: nat)
    ensures p == q && o == 0 ==> ((61 + p) * (61 + q) < (61 + o) * (122 + p + q) <==> p < 61)
  {
  }

  lemma {:induction false} ListScoreOnce(weight: real, ids: seq<string>, id: string, q: nat)
    requires q < |ids| && ids[q] == id && forall k | 0 <= k < |ids| && ids[k] == id :: k == q
    ensures ListScore(weight, ids, id) == weight / (61 + q) as real
  {
    var n := |ids| - 1;
    if q == n {
      assert forall k | 0 <= k < n :: ids[..n][k] == ids[k];
      NotListed(weight, ids[..n], id);
    } else {
      ListScoreOnce(weight, ids[..n], id, q);
    }
  }

  lemma {:induction false} HitsSectionOnce(weight: real, hits: seq<Hit>, s: string, id: string, p: nat)
    requires RankedAt(hits, s, p)
    ensures HitsSection(weight, hits, s, id) == ListScore(weight, hits[p].sections, id)
  {
    var n := |hits| - 1;
    if p == n {
      assert forall k | 0 <= k < n :: hits[..n][k] == hits[k];
      NotHitSection(weight, hits[..n], s, id);
    } else {
      assert RankedAt(hits[..n], s, p);
      HitsSectionOnce(weight, hits[..n], s, id, p);
    }
  }

  /** What one listing is worth: a source by its rank in the leg, a section by its rank within its source only. */
  lemma OneListing(w: real, hits: seq<Hit>, s: string, p: nat, id: string, q: nat)
    requires RankedAt(hits, s, p) && q < |hits[p].sections| && hits[p].sections[q] == id
    requires forall k | 0 <= k < |hits[p].sections| && hits[p].sections[k] == id :: k == q
    ensures SourceScore([Leg(w, hits)], s) == w / (61 + p) as real
    ensures SectionScore([Leg(w, hits)], s, id) == w / (61 + q) as real
  {
    HitsScoreOnce(w, hits, s, p);
    HitsSectionOnce(w, hits, s, id, p);
    ListScoreOnce(w, hits[p].sections, id, q);
    assert UpTo([], w, hits) == [Leg(w, hits)];
    ScoreUpTo([], w, hits, s);
    SectionUpTo([], w, hits, s, id);
  }
}
