/** retrieval/rerank.go, applyRanking, and retrieval/lexical_rerank.go, rankFromScores: search results are
    reordered in place after a ranking of their sections. Scores are real numbers. */
module Reranking {
  import opened Order

  // ---- ranks out of scores ----

  /** A scored section. */
  datatype Scored = Scored(id: string, score: real)

  predicate Better(a: Scored, b: Scored) { a.score > b.score || (a.score == b.score && TextLe(a.id, b.id)) }

  predicate DistinctIds(docs: seq<Scored>) { forall i, j | 0 <= i < j < |docs| :: docs[i].id != docs[j].id }

  function Positions(docs: seq<Scored>): map<string, nat> {
    if docs == [] then map[] else Positions(docs[..|docs| - 1])[docs[|docs| - 1].id := |docs| - 1]
  }

  method RankFromScores(docs: seq<Scored>) returns (rank: map<string, nat>)
    ensures rank == Positions(Sort(Better, docs))
  {
    var ordered := Sort(Better, docs);
    rank := map[];
    assert ordered[..0] == [];
    for i := 0 to |ordered|
      invariant rank == Positions(ordered[..i])
    {
      assert ordered[..i + 1][..i] == ordered[..i];
      rank := rank[ordered[i].id := i];
    }
    assert ordered[..|ordered|] == ordered;
  }

  lemma BetterOrder()
    ensures Total(Better) && Antisymmetric(Better)
  {
    TextOrder();
  }

  lemma {:induction false} PositionsAre(docs: seq<Scored>)
    requires DistinctIds(docs)
    ensures forall i | 0 <= i < |docs| :: docs[i].id in Positions(docs) && Positions(docs)[docs[i].id] == i
    ensures forall id | id in Positions(docs) :: Positions(docs)[id] < |docs| && docs[Positions(docs)[id]].id == id
  {
    if docs != [] { PositionsAre(docs[..|docs| - 1]); }
  }

  lemma SortedDistinct(docs: seq<Scored>)
    requires DistinctIds(docs)
    ensures DistinctIds(Sort(Better, docs))
  {
    var os := Sort(Better, docs);
    BetterOrder();
    SortCorrect(Better, docs);
    forall i, j | 0 <= i < j < |os| ensures os[i].id != os[j].id {
      assert os[i] in multiset(docs) && os[j] in multiset(docs);
      var x :| 0 <= x < |docs| && docs[x] == os[i];
      var y :| 0 <= y < |docs| && docs[y] == os[j];
      if x == y { Twice(os, i, j); OnceEach(docs, x); }
    }
  }

  lemma {:induction false} OnceEach(docs: seq<Scored>, x: nat)
    requires DistinctIds(docs) && x < |docs|
    ensures multiset(docs)[docs[x]] == 1
  {
    TakeOut(docs, x);
    var rest := docs[..x] + docs[x + 1..];
    assert docs[x] !in rest;
    assert docs[x] !in multiset(rest);
  }

  ghost predicate Holds(docs: seq<Scored>, rank: map<string, nat>, k: nat) {
    exists d | d in docs :: d.id in rank && rank[d.id] == k
  }

  lemma RanksInOrder(os: seq<Scored>, d: Scored, e: Scored)
    requires DistinctIds(os) && Sorted(Better, os) && d in os && e in os
    ensures d.id in Positions(os) && e.id in Positions(os)
    ensures Positions(os)[d.id] <= Positions(os)[e.id] <==> Better(d, e)
  {
    BetterOrder();
    PositionsAre(os);
    var i :| 0 <= i < |os| && os[i] == d;
    var j :| 0 <= j < |os| && os[j] == e;
    assert i < j ==> Better(os[i], os[j]);
    assert j < i ==> Better(os[j], os[i]);
  }

  /** The ranks are 0 to n-1, one a section: a higher score has a lower rank, ties go by id. */
  lemma RanksAreABijection(docs: seq<Scored>)
    requires DistinctIds(docs)
    ensures var rank := Positions(Sort(Better, docs));
      && (forall id :: id in rank <==> exists d | d in docs :: d.id == id)
      && (forall d, e | d in docs && e in docs :: rank[d.id] <= rank[e.id] <==> Better(d, e))
      && (forall id | id in rank :: rank[id] < |docs|)
      && forall k | 0 <= k < |docs| :: Holds(docs, rank, k)
  {
    hide DistinctIds, Sort;
    var os := Sort(Better, docs);
    BetterOrder();
    SortCorrect(Better, docs);
    SortedDistinct(docs);
    PositionsAre(os);
    forall d ensures d in os <==> d in docs { assert d in multiset(os) <==> d in multiset(docs); }
    hide Better;
    var rank := Positions(os);
    forall id ensures id in rank <==> exists d | d in docs :: d.id == id {
      if id in rank { assert os[rank[id]] in docs; }
      if d :| d in docs && d.id == id { assert d in os; }
    }
    forall d, e | d in docs && e in docs ensures rank[d.id] <= rank[e.id] <==> Better(d, e) { RanksInOrder(os, d, e); }
    forall k | 0 <= k < |docs| ensures Holds(docs, rank, k) { assert os[k] in docs && rank[os[k].id] == k; }
  }

  lemma RanksForgetOrder(a: seq<Scored>, b: seq<Scored>)
    requires multiset(a) == multiset(b)
    ensures Positions(Sort(Better, a)) == Positions(Sort(Better, b))
  {
    BetterOrder();
    SortForgetsOrder(Better, a, b);
  }

  // ---- applying a ranking, on values ----

  datatype Result = Result(source: string, sections: seq<string>, score: real, sectionScores: map<string, real>)

  const UNRANKED: nat := 0x4000_0000

  function RankOf(rank: map<string, nat>, id: string): nat { if id in rank then rank[id] else UNRANKED }

  function ScoreOf(rank: nat): real { 1.0 / (1 + rank) as real }

  function BestRank(rank: map<string, nat>, ids: seq<string>): nat {
    if ids == [] then UNRANKED
    else
      var best, last := BestRank(rank, ids[..|ids| - 1]), RankOf(rank, ids[|ids| - 1]);
      if last < best then last else best
  }

  function SectionLe(rank: map<string, nat>): (string, string) -> bool { (a, b) => RankOf(rank, a) <= RankOf(rank, b) }

  function SortedSections(rank: map<string, nat>, ids: seq<string>): seq<string> { Sort(SectionLe(rank), ids) }

  function Rescored(rank: map<string, nat>, r: Result): Result {
    Result(r.source, SortedSections(rank, r.sections), ScoreOf(BestRank(rank, r.sections)),
           map id | id in r.sections :: ScoreOf(RankOf(rank, id)))
  }

  function PlaceLe(keys: seq<nat>): (nat, nat) -> bool {
    (a, b) => KeyAt(keys, a) <= KeyAt(keys, b)
  }

  function KeyIs(keys: seq<nat>, k: nat): nat -> bool { x => KeyAt(keys, x) == k }

  function KeyAt(keys: seq<nat>, i: int): nat { if 0 <= i < |keys| then keys[i] else 0 }

  function UpTo(n: nat): (r: seq<nat>)
    ensures |r| == n && forall i | 0 <= i < n :: r[i] == i
  {
    seq(n, i requires 0 <= i < n => i)
  }

  /** Where the results come from, once sorted by key, equal keys in their old order. */
  function Places(keys: seq<nat>): seq<nat> { Sort(PlaceLe(keys), UpTo(|keys|)) }

  function Keys(rank: map<string, nat>, rs: seq<Result>): (r: seq<nat>)
    ensures |r| == |rs| && forall i | 0 <= i < |rs| :: r[i] == BestRank(rank, rs[i].sections)
  {
    seq(|rs|, i requires 0 <= i < |rs| => BestRank(rank, rs[i].sections))
  }

  lemma PlacesPermute(keys: seq<nat>)
    ensures |Places(keys)| == |keys| && multiset(Places(keys)) == multiset(UpTo(|keys|))
    ensures Sorted(PlaceLe(keys), Places(keys))
    ensures forall i | 0 <= i < |keys| :: Places(keys)[i] < |keys|
  {
    SortCorrect(PlaceLe(keys), UpTo(|keys|));
    forall i | 0 <= i < |keys| ensures Places(keys)[i] < |keys| {
      assert Places(keys)[i] in multiset(UpTo(|keys|));
    }
  }

  function Apply(rank: map<string, nat>, rs: seq<Result>): (out: seq<Result>)
    ensures |out| == |rs|
  {
    var order := Places(Keys(rank, rs));
    PlacesPermute(Keys(rank, rs));
    seq(|rs|, i requires 0 <= i < |rs| => Rescored(rank, rs[order[i]]))
  }

  // ---- in place ----

  class SearchResult {
    const source: string
    var sections: seq<string>
    var score: real
    var sectionScores: map<string, real>

    constructor (source: string, sections: seq<string>, score: real, sectionScores: map<string, real>)
      ensures Value() == Result(source, sections, score, sectionScores)
    {
      this.source, this.sections, this.score, this.sectionScores := source, sections, score, sectionScores;
    }

    function Value(): Result
      reads this
    {
      Result(source, sections, score, sectionScores)
    }

    /** The sections by rank, and their scores. */
    method RankSections(rank: map<string, nat>)
      modifies `sections, `sectionScores
      ensures sections == SortedSections(rank, old(sections))
      ensures sectionScores == map id | id in old(sections) :: ScoreOf(RankOf(rank, id))
    {
      sections := Sort(SectionLe(rank), sections);
      SectionsKept(rank, old(sections));
      sectionScores := ScoreSections(rank, sections);
    }

    method ResultRank(rank: map<string, nat>) returns (best: nat)
      ensures best == BestRank(rank, sections)
    {
      best := UNRANKED;
      assert sections[..0] == [];
      for i := 0 to |sections|
        invariant best == BestRank(rank, sections[..i])
      {
        assert sections[..i + 1][..i] == sections[..i];
        var sr := RankOf(rank, sections[i]);
        if sr < best { best := sr; }
      }
      assert sections[..|sections|] == sections;
    }
  }

  method ScoreSections(rank: map<string, nat>, ids: seq<string>) returns (scores: map<string, real>)
    ensures scores == map id | id in ids :: ScoreOf(RankOf(rank, id))
  {
    scores := map[];
    for i := 0 to |ids|
      invariant scores == map id | id in ids[..i] :: ScoreOf(RankOf(rank, id))
    {
      // A higher score for a better, lower rank.
      scores := scores[ids[i] := 1.0 / (1 + RankOf(rank, ids[i])) as real];
    }
    assert ids[..|ids|] == ids;
  }

  lemma SectionsKept(rank: map<string, nat>, ids: seq<string>)
    ensures multiset(SortedSections(rank, ids)) == multiset(ids)
    ensures Sorted(SectionLe(rank), SortedSections(rank, ids))
    ensures forall id :: id in SortedSections(rank, ids) <==> id in ids
  {
    SortCorrect(SectionLe(rank), ids);
    forall id ensures id in SortedSections(rank, ids) <==> id in ids {
      assert id in multiset(SortedSections(rank, ids)) <==> id in multiset(ids);
    }
  }

  // ---- what a ranking does ----

  lemma {:induction false} BestIsLeast(rank: map<string, nat>, ids: seq<string>)
    ensures BestRank(rank, ids) <= UNRANKED
    ensures forall id | id in ids :: BestRank(rank, ids) <= RankOf(rank, id)
    ensures BestRank(rank, ids) < UNRANKED ==> exists id | id in ids :: RankOf(rank, id) == BestRank(rank, ids)
  {
    if ids != [] {
      var n := |ids| - 1;
      BestIsLeast(rank, ids[..n]);
      assert ids == ids[..n] + [ids[n]];
    }
  }

  lemma BestOfSame(rank: map<string, nat>, a: seq<string>, b: seq<string>)
    requires forall id :: id in a <==> id in b
    ensures BestRank(rank, a) == BestRank(rank, b)
  {
    BestIsLeast(rank, a);
    BestIsLeast(rank, b);
  }

  /** Rescoring twice is rescoring once. */
  lemma RescoredAgain(rank: map<string, nat>, r: Result)
    ensures Rescored(rank, Rescored(rank, r)) == Rescored(rank, r)
    ensures BestRank(rank, Rescored(rank, r).sections) == BestRank(rank, r.sections)
  {
    hide Sort, BestRank, Sorted;
    SectionsKept(rank, r.sections);
    BestOfSame(rank, SortedSections(rank, r.sections), r.sections);
    SortIdempotent(SectionLe(rank), SortedSections(rank, r.sections));
  }

  /** The ranks stand below the mark of the unranked, as positions in a list do. */
  predicate Proper(rank: map<string, nat>) { forall id | id in rank :: rank[id] <= UNRANKED }

  lemma ScoreFalls(a: nat, b: nat)
    requires a <= b
    ensures ScoreOf(a) >= ScoreOf(b) > 0.0
  {
    var x, y := (1 + a) as real, (1 + b) as real;
    assert 1.0 / x == y / (x * y) && 1.0 / y == x / (x * y);
  }

  function RankIs(rank: map<string, nat>, k: nat): string -> bool { id => RankOf(rank, id) == k }

  /** A result's sections are permuted, stably, by rank; its score is the best of its section scores. */
  lemma RescoredCorrect(rank: map<string, nat>, r: Result)
    requires Proper(rank)
    ensures var q := Rescored(rank, r);
      && q.source == r.source && multiset(q.sections) == multiset(r.sections)
      && (forall i, j | 0 <= i < j < |q.sections| :: RankOf(rank, q.sections[i]) <= RankOf(rank, q.sections[j]))
      && (forall k: nat :: Filter(RankIs(rank, k), q.sections) == Filter(RankIs(rank, k), r.sections))
      && (forall id :: id in q.sectionScores <==> id in r.sections)
      && (forall id | id in r.sections :: q.sectionScores[id] <= q.score)
      && (r.sections != [] ==> exists id | id in r.sections :: q.sectionScores[id] == q.score)
  {
    var q := Rescored(rank, r);
    SectionsKept(rank, r.sections);
    assert forall i, j | 0 <= i < j < |q.sections| :: SectionLe(rank)(q.sections[i], q.sections[j]);
    forall k: nat
      ensures Filter(RankIs(rank, k), q.sections) == Filter(RankIs(rank, k), r.sections)
    {
      SortStable(SectionLe(rank), RankIs(rank, k), r.sections);
    }
    BestIsLeast(rank, r.sections);
    forall id | id in r.sections ensures q.sectionScores[id] <= q.score {
      ScoreFalls(BestRank(rank, r.sections), RankOf(rank, id));
    }
    if r.sections != [] && BestRank(rank, r.sections) == UNRANKED { assert r.sections[0] in r.sections; }
  }

  /** Places with equal keys keep their order. */
  lemma PlacesStable(keys: seq<nat>, i: nat, j: nat)
    requires i < j < |keys|
    ensures var p := Places(keys);
      && |p| == |keys| && p[i] < |keys| && p[j] < |keys| && p[i] != p[j]
      && keys[p[i]] <= keys[p[j]] && (keys[p[i]] == keys[p[j]] ==> p[i] < p[j])
  {
    PlacesPermute(keys);
    var p := Places(keys);
    assert PlaceLe(keys)(p[i], p[j]);
    Twice(p, i, j);
    UpToOnce(|keys|, p[i]);
    if keys[p[i]] == keys[p[j]] {
      var k := keys[p[i]];
      SortStable(PlaceLe(keys), KeyIs(keys, k), UpTo(|keys|));
      FilterIncreases(KeyIs(keys, k), UpTo(|keys|));
      FilteredInOrder(KeyIs(keys, k), p, i, j);
    }
  }

  lemma UpToOnce(n: nat, x: nat)
    requires x < n
    ensures multiset(UpTo(n))[x] == 1
  {
    TakeOut(UpTo(n), x);
    var rest := UpTo(n)[..x] + UpTo(n)[x + 1..];
    assert x !in rest;
    assert x !in multiset(rest);
  }

  predicate Increasing(s: seq<nat>) { forall i, j | 0 <= i < j < |s| :: s[i] < s[j] }

  lemma {:induction false} FilterIncreases(q: nat -> bool, s: seq<nat>)
    requires Increasing(s)
    ensures Increasing(Filter(q, s))
  {
    if s != [] {
      FilterIncreases(q, s[1..]);
      FilterMembers(q, s[1..]);
      var rest := Filter(q, s[1..]);
      forall k | 0 <= k < |rest| ensures s[0] < rest[k] {
        assert rest[k] in s[1..];
        var i :| 0 <= i < |s[1..]| && s[1..][i] == rest[k];
        assert s[i + 1] == rest[k];
      }
      assert Increasing([s[0]] + rest);
    }
  }

  lemma {:induction false} FilteredInOrder(q: nat -> bool, s: seq<nat>, i: nat, j: nat)
    requires Increasing(Filter(q, s)) && i < j < |s| && q(s[i]) && q(s[j])
    ensures s[i] < s[j]
  {
    var f := Filter(q, s);
    if i == 0 {
      FilterMembers(q, s[1..]);
      assert s[1..][j - 1] == s[j];
      assert s[j] in Filter(q, s[1..]);
      assert f == [s[0]] + Filter(q, s[1..]);
      var x :| 0 <= x < |f[1..]| && f[1..][x] == s[j];
      assert f[0] < f[x + 1];
    } else {
      if q(s[0]) { assert Filter(q, s[1..]) == f[1..]; }
      FilteredInOrder(q, s[1..], i - 1, j - 1);
    }
  }

  /** Where each result comes from. */
  function NewOrder(rank: map<string, nat>, rs: seq<Result>): (p: seq<nat>)
    ensures |p| == |rs| && forall i | 0 <= i < |rs| :: p[i] < |rs|
  {
    PlacesPermute(Keys(rank, rs));
    Places(Keys(rank, rs))
  }

  /** The results are permuted, stably, by their best section; their scores never increase. */
  lemma ApplyCorrect(rank: map<string, nat>, rs: seq<Result>)
    ensures var out, p := Apply(rank, rs), NewOrder(rank, rs);
      && multiset(p) == multiset(UpTo(|rs|))
      && (forall i | 0 <= i < |rs| :: out[i] == Rescored(rank, rs[p[i]]))
      && (forall i, j | 0 <= i < j < |rs| :: out[i].score >= out[j].score)
      && (forall i, j | 0 <= i < j < |rs| ::
          BestRank(rank, rs[p[i]].sections) == BestRank(rank, rs[p[j]].sections) ==> p[i] < p[j])
  {
    var keys, out, p := Keys(rank, rs), Apply(rank, rs), NewOrder(rank, rs);
    PlacesPermute(keys);
    forall i, j | 0 <= i < j < |rs|
      ensures out[i].score >= out[j].score
      ensures BestRank(rank, rs[p[i]].sections) == BestRank(rank, rs[p[j]].sections) ==> p[i] < p[j]
    {
      PlacesStable(keys, i, j);
      ScoreFalls(keys[p[i]], keys[p[j]]);
    }
  }

  // ---- what the order means ----

  /** Every rank is below the one that stands for none. */
  predicate Ranks(rank: map<string, nat>) { forall id | id in rank :: rank[id] < UNRANKED }

  ghost predicate HasRanked(rank: map<string, nat>, ids: seq<string>) { exists id | id in ids :: id in rank }

  function Unlisted(rank: map<string, nat>): string -> bool { id => id !in rank }

  /** Ranked sections come first, the lowest rank before the others; the others follow in the order they had. Each
      ranked section scores one over its rank plus one. */
  lemma RankedSectionsFirst(rank: map<string, nat>, r: Result)
    requires Ranks(rank)
    ensures var q := Rescored(rank, r);
      && (forall i, j | 0 <= i < j < |q.sections| && q.sections[j] in rank ::
          q.sections[i] in rank && rank[q.sections[i]] <= rank[q.sections[j]])
      && Filter(Unlisted(rank), q.sections) == Filter(Unlisted(rank), r.sections)
      && (forall id | id in r.sections && id in rank :: q.sectionScores[id] == 1.0 / (1 + rank[id]) as real)
  {
    UnrankedSame(rank, Rescored(rank, r).sections);
    UnrankedSame(rank, r.sections);
    InOrder(rank, r);
    ScoresAre(rank, r);
    RescoredCorrect(rank, r);
    hide *;
  }

  lemma InOrder(rank: map<string, nat>, r: Result)
    requires Ranks(rank)
    ensures var q := Rescored(rank, r);
      forall i, j | 0 <= i < j < |q.sections| && q.sections[j] in rank ::
        q.sections[i] in rank && rank[q.sections[i]] <= rank[q.sections[j]]
  {
    RescoredCorrect(rank, r);
    hide Filter, SortedSections, BestRank, Rescored;
    var q := Rescored(rank, r);
    forall i, j | 0 <= i < j < |q.sections| && q.sections[j] in rank
      ensures q.sections[i] in rank && rank[q.sections[i]] <= rank[q.sections[j]]
    {
      assert RankOf(rank, q.sections[i]) <= RankOf(rank, q.sections[j]);
    }
  }

  lemma ScoresAre(rank: map<string, nat>, r: Result)
    ensures forall id | id in r.sections && id in rank ::
      id in Rescored(rank, r).sectionScores && Rescored(rank, r).sectionScores[id] == 1.0 / (1 + rank[id]) as real
  {
  }

  lemma UnrankedSame(rank: map<string, nat>, ids: seq<string>)
    requires Ranks(rank)
    ensures Filter(Unlisted(rank), ids) == Filter(RankIs(rank, UNRANKED), ids)
  {
    forall id ensures RankIs(rank, UNRANKED)(id) == Unlisted(rank)(id) {}
    FilterSame(RankIs(rank, UNRANKED), Unlisted(rank), ids);
  }

  lemma {:induction false} FilterSame(f: string -> bool, g: string -> bool, ids: seq<string>)
    requires forall id :: f(id) == g(id)
    ensures Filter(f, ids) == Filter(g, ids)
  {
    if ids != [] { FilterSame(f, g, ids[1..]); }
  }

  lemma BestIsRanked(rank: map<string, nat>, ids: seq<string>)
    requires Ranks(rank)
    ensures BestRank(rank, ids) < UNRANKED <==> HasRanked(rank, ids)
    ensures forall id | id in ids && id in rank :: BestRank(rank, ids) <= rank[id]
    ensures HasRanked(rank, ids) ==> exists id | id in ids && id in rank :: rank[id] == BestRank(rank, ids)
  {
    BestIsLeast(rank, ids);
    hide BestRank;
    if BestRank(rank, ids) < UNRANKED {
      var id :| id in ids && RankOf(rank, id) == BestRank(rank, ids);
      assert id in rank;
    }
  }

  lemma ByBestRank(rank: map<string, nat>, rs: seq<Result>, i: nat, j: nat)
    requires i < j < |rs|
    ensures var p := NewOrder(rank, rs);
      && BestRank(rank, rs[p[i]].sections) <= BestRank(rank, rs[p[j]].sections)
      && (BestRank(rank, rs[p[i]].sections) == BestRank(rank, rs[p[j]].sections) ==> p[i] < p[j])
  {
    hide BestRank, Places;
    PlacesStable(Keys(rank, rs), i, j);
  }

  /** Of two results the first has a section ranked at least as low as any of the other, and a result without a ranked
      section is followed by such results only, in the order they had. */
  lemma RankedResultsFirst(rank: map<string, nat>, rs: seq<Result>, i: nat, j: nat)
    requires Ranks(rank) && i < j < |rs|
    ensures var a, b := rs[NewOrder(rank, rs)[i]], rs[NewOrder(rank, rs)[j]];
      && (forall id | id in b.sections && id in rank :: exists o | o in a.sections && o in rank :: rank[o] <= rank[id])
      && (!HasRanked(rank, a.sections) ==>
          !HasRanked(rank, b.sections) && NewOrder(rank, rs)[i] < NewOrder(rank, rs)[j])
  {
    ByBestRank(rank, rs, i, j);
    hide BestRank, NewOrder;
    var a, b := rs[NewOrder(rank, rs)[i]], rs[NewOrder(rank, rs)[j]];
    BestIsRanked(rank, a.sections);
    BestIsRanked(rank, b.sections);
    BestIsLeast(rank, a.sections);
    BestIsLeast(rank, b.sections);
    if id :| id in b.sections && id in rank { assert HasRanked(rank, b.sections); }
  }

  /** Results reranked by the scores of their sections: none comes before one with a section of a higher score than
      all of its own. */
  lemma RerankedByScore(docs: seq<Scored>, rs: seq<Result>, i: nat, j: nat)
    requires DistinctIds(docs) && |docs| <= UNRANKED && i < j < |rs|
    ensures var p := NewOrder(Positions(Sort(Better, docs)), rs);
      forall d | d in docs && d.id in rs[p[j]].sections ::
        exists e | e in docs && e.id in rs[p[i]].sections :: Better(e, d)
  {
    var rank := Positions(Sort(Better, docs));
    RanksAreABijection(docs);
    hide DistinctIds, Sort, Positions, Better;
    assert Ranks(rank);
    RankedResultsFirst(rank, rs, i, j);
    hide NewOrder;
    var a, b := rs[NewOrder(rank, rs)[i]], rs[NewOrder(rank, rs)[j]];
    forall d | d in docs && d.id in b.sections ensures exists e | e in docs && e.id in a.sections :: Better(e, d) {
      assert d.id in rank;
      var o :| o in a.sections && o in rank && rank[o] <= rank[d.id];
      var e :| e in docs && e.id == o;
    }
  }

  /** Applying a ranking again changes nothing. */
  lemma ApplyIdempotent(rank: map<string, nat>, rs: seq<Result>)
    ensures Apply(rank, Apply(rank, rs)) == Apply(rank, rs)
  {
    var once := Apply(rank, rs);
    var keys, again, p := Keys(rank, rs), Keys(rank, once), NewOrder(rank, rs);
    forall i | 0 <= i < |rs| ensures again[i] == keys[p[i]] && Rescored(rank, once[i]) == once[i] {
      RescoredAgain(rank, rs[p[i]]);
    }
    forall i, j | 0 <= i < j < |rs| ensures again[i] <= again[j] { PlacesStable(keys, i, j); }
    assert Sorted(PlaceLe(again), UpTo(|again|));
    SortIdempotent(PlaceLe(again), UpTo(|again|));
  }

  // ---- applying a ranking to shared results ----

  function Values(rs: seq<SearchResult>): (r: seq<Result>)
    reads rs
    ensures |r| == |rs| && forall i | 0 <= i < |rs| :: r[i] == rs[i].Value()
  {
    seq(|rs|, i requires 0 <= i < |rs| reads rs => rs[i].Value())
  }

  /** The object holds its old sections by rank, and their scores. */
  twostate predicate Ranked(r: SearchResult, rank: map<string, nat>)
    reads r
  {
    && r.sections == SortedSections(rank, old(r.sections))
    && r.sectionScores == map id | id in old(r.sections) :: ScoreOf(RankOf(rank, id))
  }

  method RankAll(results: seq<SearchResult>, rank: map<string, nat>)
    modifies (set r | r in results)`sections, (set r | r in results)`sectionScores
    ensures forall r | r in results :: Ranked(r, rank)
  {
    for i := 0 to |results|
      invariant forall r | r in results :: if r in results[..i] then Ranked(r, rank) else unchanged(r)
    {
      RankOne(results[i], rank, results[i] in results[..i]);
    }
    assert results[..|results|] == results;
  }

  /** A result listed twice is ranked twice, to the same effect. */
  method RankOne(r: SearchResult, rank: map<string, nat>, ghost again: bool)
    modifies r`sections, r`sectionScores
    ensures r.sections == SortedSections(rank, old(r.sections))
    ensures r.sectionScores == map id | id in old(r.sections) :: ScoreOf(RankOf(rank, id))
    ensures forall ids :: old(r.sections) == SortedSections(rank, ids) ==>
      r.sections == old(r.sections) && r.sectionScores == map id | id in ids :: ScoreOf(RankOf(rank, id))
  {
    r.RankSections(rank);
    forall ids | old(r.sections) == SortedSections(rank, ids)
      ensures r.sections == old(r.sections) && r.sectionScores == map id | id in ids :: ScoreOf(RankOf(rank, id))
    {
      SectionsKept(rank, ids);
      SortIdempotent(SectionLe(rank), SortedSections(rank, ids));
    }
  }

  method RankResults(results: seq<SearchResult>, rank: map<string, nat>) returns (keys: seq<nat>)
    ensures |keys| == |results| && forall i | 0 <= i < |keys| :: keys[i] == BestRank(rank, results[i].sections)
  {
    keys := [];
    for i := 0 to |results|
      invariant |keys| == i && forall j | 0 <= j < i :: keys[j] == BestRank(rank, results[j].sections)
    {
      var key := results[i].ResultRank(rank);
      keys := keys + [key];
    }
  }

  method ScoreAll(results: seq<SearchResult>, rank: map<string, nat>)
    modifies (set r | r in results)`score
    ensures forall r | r in results :: r.score == ScoreOf(BestRank(rank, r.sections))
  {
    for i := 0 to |results|
      invariant forall r | r in results[..i] :: r.score == ScoreOf(BestRank(rank, r.sections))
    {
      var best := results[i].ResultRank(rank);
      results[i].score := 1.0 / (1 + best) as real;
    }
    assert results[..|results|] == results;
  }

  lemma SameKeys(rank: map<string, nat>, before: seq<Result>, keys: seq<nat>)
    requires |keys| == |before|
    requires forall i | 0 <= i < |keys| :: keys[i] == BestRank(rank, SortedSections(rank, before[i].sections))
    ensures keys == Keys(rank, before)
  {
    forall i | 0 <= i < |keys| ensures keys[i] == BestRank(rank, before[i].sections) {
      RescoredAgain(rank, before[i]);
    }
  }

  /** The results as objects, in their new order; their fields are rewritten in place. */
  method ApplyRanking(results: seq<SearchResult>, rank: map<string, nat>) returns (out: seq<SearchResult>)
    modifies results
    ensures |out| == |results|
    ensures forall i | 0 <= i < |out| :: out[i] == results[NewOrder(rank, old(Values(results)))[i]]
    ensures Values(out) == Apply(rank, old(Values(results)))
  {
    ghost var before := Values(results);
    RankAll(results, rank);
    var keys := RankResults(results, rank);
    forall i | 0 <= i < |keys| ensures keys[i] == BestRank(rank, SortedSections(rank, before[i].sections)) {
      assert results[i] in results && Ranked(results[i], rank);
    }
    SameKeys(rank, before, keys);
    out := Arrange(results, keys);
    assert forall r | r in out :: r in results;
    ScoreAll(out, rank);
    hide Sort, BestRank, Places;
    forall i | 0 <= i < |out| ensures out[i].Value() == Apply(rank, before)[i] {
      var k := NewOrder(rank, before)[i];
      assert out[i] == results[k] && results[k] in results && Ranked(results[k], rank);
      FieldsRescored(rank, before[k], out[i].Value());
    }
  }

  lemma FieldsRescored(rank: map<string, nat>, r: Result, v: Result)
    requires v.source == r.source && v.sections == SortedSections(rank, r.sections)
    requires v.score == ScoreOf(BestRank(rank, v.sections))
    requires v.sectionScores == map id | id in r.sections :: ScoreOf(RankOf(rank, id))
    ensures v == Rescored(rank, r)
  {
    RescoredAgain(rank, r);
  }

  /** slices.SortStableFunc by key. */
  method Arrange(results: seq<SearchResult>, keys: seq<nat>) returns (out: seq<SearchResult>)
    requires |keys| == |results|
    ensures |out| == |results| == |Places(keys)|
    ensures forall i | 0 <= i < |out| :: Places(keys)[i] < |results| && out[i] == results[Places(keys)[i]]
  {
    PlacesPermute(keys);
    var places := Sort(PlaceLe(keys), UpTo(|keys|));
    out := seq(|results|, i requires 0 <= i < |results| => results[places[i]]);
  }
}
