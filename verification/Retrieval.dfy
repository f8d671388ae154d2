/** retrieval/orchestrator.go and the helpers of retrieval/evaluate.go: evidence is retrieved, fused, judged and, as
    long as the verdict is not confident, retrieved again with another query. The search, the evaluator, the
    reformulator and the decomposer are arbitrary functions of the round. */
module Retrieval {
  import opened Wrappers
  import opened Order

  datatype Result = Result(source: string, sections: seq<string>, score: real, sectionScores: Option<map<string, real>>)

  /** nil stays nil. */
  function FilterSectionScores(scores: Option<map<string, real>>, keep: seq<string>): Option<map<string, real>> {
    if scores.None? then None else Some(map id | id in keep && id in scores.value :: scores.value[id])
  }

  method BuildSectionScores(scores: Option<map<string, real>>, keep: seq<string>) returns (r: Option<map<string, real>>)
    ensures r == FilterSectionScores(scores, keep)
  {
    if scores.None? { return None; }
    var out: map<string, real> := map[];
    for i := 0 to |keep|
      invariant out == map id | id in keep[..i] && id in scores.value :: scores.value[id]
    {
      if keep[i] in scores.value { out := out[keep[i] := scores.value[keep[i]]]; }
    }
    assert keep[..|keep|] == keep;
    r := Some(out);
  }

  // ---- fusion ----

  /** The ids not seen yet, each once. */
  function Fresh(seen: set<string>, ids: seq<string>): seq<string>
    decreases ids
  {
    if ids == [] then []
    else if ids[0] in seen then Fresh(seen, ids[1..])
    else [ids[0]] + Fresh(seen + {ids[0]}, ids[1..])
  }

  function Trim(r: Result, kept: seq<string>): Result {
    r.(sections := kept, sectionScores := FilterSectionScores(r.sectionScores, kept))
  }

  function Elements(ids: seq<string>): set<string> { set id | id in ids }

  function Fuse(seen: set<string>, rs: seq<Result>): seq<Result>
    decreases rs
  {
    if rs == [] then []
    else
      var kept := Fresh(seen, rs[0].sections);
      (if kept == [] then [] else [Trim(rs[0], kept)]) + Fuse(seen + Elements(rs[0].sections), rs[1..])
  }

  function Concat<T>(groups: seq<seq<T>>): seq<T> {
    if groups == [] then [] else groups[0] + Concat(groups[1..])
  }

  method KeepFresh(ids: seq<string>, was: set<string>) returns (kept: seq<string>, seen: set<string>)
    ensures kept == Fresh(was, ids) && seen == was + Elements(ids)
  {
    kept, seen := [], was;
    for i := 0 to |ids|
      invariant seen == was + Elements(ids[..i])
      invariant kept + Fresh(seen, ids[i..]) == Fresh(was, ids)
    {
      assert ids[i..][1..] == ids[i + 1..];
      if ids[i] in seen { continue; }
      ghost var rest := Fresh(seen + {ids[i]}, ids[i + 1..]);
      assert kept + ([ids[i]] + rest) == kept + [ids[i]] + rest;
      seen := seen + {ids[i]};
      kept := kept + [ids[i]];
    }
    assert ids[..|ids|] == ids;
  }

  method FuseGroup(group: seq<Result>, was: set<string>, before: seq<Result>)
    returns (out: seq<Result>, seen: set<string>)
    ensures out == before + Fuse(was, group) && seen == was + Elements(SectionsOf(group))
  {
    hide FilterSectionScores;
    out, seen := before, was;
    assert group[..0] == [] && before + [] == before;
    for i := 0 to |group|
      invariant seen == was + Elements(SectionsOf(group[..i]))
      invariant out == before + Fuse(was, group[..i])
    {
      FuseOneMore(was, group, i);
      SectionsOneMore(group, i);
      var r := group[i];
      var kept;
      kept, seen := KeepFresh(r.sections, seen);
      if |kept| == 0 { continue; }
      var scores := BuildSectionScores(r.sectionScores, kept);
      out := out + [Result(r.source, kept, r.score, scores)];
    }
    assert group[..|group|] == group;
  }

  lemma FuseOneMore(seen: set<string>, rs: seq<Result>, i: nat)
    requires i < |rs|
    ensures var kept := Fresh(seen + Elements(SectionsOf(rs[..i])), rs[i].sections);
      Fuse(seen, rs[..i + 1]) == Fuse(seen, rs[..i]) + if kept == [] then [] else [Trim(rs[i], kept)]
  {
    assert rs[..i + 1] == rs[..i] + [rs[i]];
    FuseConcat(seen, rs[..i], [rs[i]]);
    FuseSingle(seen + Elements(SectionsOf(rs[..i])), rs[i]);
  }

  lemma FuseSingle(seen: set<string>, r: Result)
    ensures var kept := Fresh(seen, r.sections); Fuse(seen, [r]) == if kept == [] then [] else [Trim(r, kept)]
  {
    assert [r][1..] == [];
  }

  /** Every section listed, in order. */
  function SectionsOf(rs: seq<Result>): seq<string> {
    if rs == [] then [] else rs[0].sections + SectionsOf(rs[1..])
  }

  lemma {:induction false} SectionsConcat(a: seq<Result>, b: seq<Result>)
    ensures SectionsOf(a + b) == SectionsOf(a) + SectionsOf(b)
  {
    if a == [] {
      assert a + b == b;
    } else {
      assert (a + b)[1..] == a[1..] + b;
      SectionsConcat(a[1..], b);
    }
  }

  lemma SectionsOneMore(rs: seq<Result>, i: nat)
    requires i < |rs|
    ensures SectionsOf(rs[..i + 1]) == SectionsOf(rs[..i]) + rs[i].sections
  {
    assert rs[..i + 1] == rs[..i] + [rs[i]];
    assert SectionsOf([rs[i]]) == rs[i].sections by { assert [rs[i]][1..] == []; }
    SectionsConcat(rs[..i], [rs[i]]);
  }

  method FuseResults(groups: seq<seq<Result>>) returns (out: seq<Result>)
    ensures out == Fuse({}, Concat(groups))
  {
    hide Fuse, SectionsOf;
    var seen: set<string> := {};
    out := [];
    assert groups[0..] == groups;
    for g := 0 to |groups|
      invariant out + Fuse(seen, Concat(groups[g..])) == Fuse({}, Concat(groups))
    {
      assert groups[g..][1..] == groups[g + 1..];
      FuseConcat(seen, groups[g], Concat(groups[g + 1..]));
      out, seen := FuseGroup(groups[g], seen, out);
    }
    NothingToFuse(seen);
  }

  lemma NothingToFuse(seen: set<string>)
    ensures Fuse(seen, []) == []
  {
  }

  lemma {:induction false} FuseConcat(seen: set<string>, a: seq<Result>, b: seq<Result>)
    ensures Fuse(seen, a + b) == Fuse(seen, a) + Fuse(seen + Elements(SectionsOf(a)), b)
    decreases a
  {
    if a == [] {
      assert a + b == b && seen + Elements(SectionsOf(a)) == seen;
    } else {
      assert (a + b)[1..] == a[1..] + b && (a + b)[0] == a[0];
      SeenSections(seen, a);
      hide Elements, SectionsOf, Fresh, Trim;
      FuseConcat(seen + Elements(a[0].sections), a[1..], b);
    }
  }

  lemma SeenSections(seen: set<string>, a: seq<Result>)
    requires a != []
    ensures seen + Elements(a[0].sections) + Elements(SectionsOf(a[1..])) == seen + Elements(SectionsOf(a))
  {
  }

  // ---- what fusion keeps ----

  function FirstIndex(ids: seq<string>, id: string): (n: nat)
    requires id in ids
    ensures n < |ids| && ids[n] == id && id !in ids[..n]
  {
    if ids[0] == id then 0
    else
      var n := FirstIndex(ids[1..], id);
      assert ids[..n + 1] == [ids[0]] + ids[1..][..n];
      n + 1
  }

  lemma {:induction false} FreshElements(seen: set<string>, ids: seq<string>)
    ensures forall id :: id in Fresh(seen, ids) <==> id in ids && id !in seen
    decreases ids
  {
    if ids != [] {
      assert ids == [ids[0]] + ids[1..];
      if ids[0] in seen { FreshElements(seen, ids[1..]); } else { FreshElements(seen + {ids[0]}, ids[1..]); }
    }
  }

  lemma FirstInTail(ids: seq<string>, id: string)
    requires ids != [] && id in ids[1..]
    ensures id in ids && FirstIndex(ids, ids[0]) == 0
    ensures FirstIndex(ids, id) == if id == ids[0] then 0 else 1 + FirstIndex(ids[1..], id)
  {
  }

  /** What is new comes once, in the order of its first occurrence. */
  lemma {:induction false} FreshInOrder(seen: set<string>, ids: seq<string>, i: nat, j: nat)
    requires i < j < |Fresh(seen, ids)|
    ensures Fresh(seen, ids)[i] in ids && Fresh(seen, ids)[j] in ids
    ensures FirstIndex(ids, Fresh(seen, ids)[i]) < FirstIndex(ids, Fresh(seen, ids)[j])
    decreases ids
  {
    hide FirstIndex;
    var f, tail := Fresh(seen, ids), ids[1..];
    var now := if ids[0] in seen then seen else seen + {ids[0]};
    var g, d := Fresh(now, tail), if ids[0] in seen then 0 else 1;
    assert f == (if ids[0] in seen then g else [ids[0]] + g);
    assert f[j] == g[j - d] && (i >= d ==> f[i] == g[i - d]);
    FreshElements(now, tail);
    hide Fresh;
    assert f[j] in g;
    FirstInTail(ids, f[j]);
    if i >= d {
      assert f[i] in g;
      FreshInOrder(now, tail, i - d, j - d);
      FirstInTail(ids, f[i]);
    }
  }

  lemma {:induction false} FreshConcat(seen: set<string>, a: seq<string>, b: seq<string>)
    ensures Fresh(seen, a + b) == Fresh(seen, a) + Fresh(seen + Elements(a), b)
    decreases a
  {
    if a == [] {
      assert a + b == b && seen + Elements(a) == seen;
    } else {
      assert (a + b)[1..] == a[1..] + b;
      if a[0] in seen {
        FreshConcat(seen, a[1..], b);
        assert seen + Elements(a[1..]) == seen + Elements(a);
      } else {
        FreshConcat(seen + {a[0]}, a[1..], b);
        assert seen + {a[0]} + Elements(a[1..]) == seen + Elements(a);
      }
    }
  }

  /** The fusion lists every section of the groups once, where it first occurs. */
  lemma {:induction false} FuseListsFirst(seen: set<string>, rs: seq<Result>)
    ensures SectionsOf(Fuse(seen, rs)) == Fresh(seen, SectionsOf(rs))
    ensures forall r | r in Fuse(seen, rs) :: r.sections != []
    decreases rs
  {
    if rs != [] {
      var kept, rest := Fresh(seen, rs[0].sections), Fuse(seen + Elements(rs[0].sections), rs[1..]);
      FuseListsFirst(seen + Elements(rs[0].sections), rs[1..]);
      FreshConcat(seen, rs[0].sections, SectionsOf(rs[1..]));
      if kept != [] {
        assert ([Trim(rs[0], kept)] + rest)[1..] == rest;
      } else {
        assert [] + rest == rest;
      }
    }
  }

  /** Ids that are all new and distinct stay. */
  lemma {:induction false} FreshAgain(seen: set<string>, ids: seq<string>)
    ensures Fresh(seen, Fresh(seen, ids)) == Fresh(seen, ids)
    decreases ids
  {
    if ids != [] {
      if ids[0] in seen {
        FreshAgain(seen, ids[1..]);
      } else {
        var g := Fresh(seen + {ids[0]}, ids[1..]);
        FreshAgain(seen + {ids[0]}, ids[1..]);
        assert ([ids[0]] + g)[1..] == g;
      }
    }
  }

  lemma TrimAgain(r: Result, kept: seq<string>)
    ensures Trim(Trim(r, kept), kept) == Trim(r, kept)
  {
    var scores := FilterSectionScores(r.sectionScores, kept);
    if scores.Some? { assert FilterSectionScores(scores, kept).value == scores.value; }
  }

  /** Fusing a fusion changes nothing. */
  lemma {:induction false} FuseAgain(seen: set<string>, rs: seq<Result>)
    ensures Fuse(seen, Fuse(seen, rs)) == Fuse(seen, rs)
    decreases rs
  {
    hide FilterSectionScores, Trim;
    if rs != [] {
      var kept, all := Fresh(seen, rs[0].sections), seen + Elements(rs[0].sections);
      var rest := Fuse(all, rs[1..]);
      FuseAgain(all, rs[1..]);
      FreshElements(seen, rs[0].sections);
      assert seen + Elements(kept) == all;
      if kept == [] {
        assert Elements(kept) == {} && seen == all;
        assert [] + rest == rest;
      } else {
        FreshAgain(seen, rs[0].sections);
        FuseTrimmed(seen, rs[0], kept, rest);
      }
    }
  }

  lemma FuseTrimmed(seen: set<string>, r: Result, kept: seq<string>, rest: seq<Result>)
    requires kept != [] && Fresh(seen, kept) == kept
    ensures Fuse(seen, [Trim(r, kept)] + rest) == [Trim(r, kept)] + Fuse(seen + Elements(kept), rest)
  {
    TrimAgain(r, kept);
    assert ([Trim(r, kept)] + rest)[1..] == rest;
  }

  /** Fusing in two rounds is fusing everything at once. */
  lemma FuseAssociates(a: seq<Result>, b: seq<Result>, c: seq<Result>)
    ensures Fuse({}, Fuse({}, a + b) + c) == Fuse({}, a + b + c)
  {
    var ab := Fuse({}, a + b);
    FuseConcat({}, ab, c);
    FuseAgain({}, a + b);
    FuseListsFirst({}, a + b);
    FreshElements({}, SectionsOf(a + b));
    assert Elements(SectionsOf(ab)) == Elements(SectionsOf(a + b));
    FuseConcat({}, a + b, c);
  }

  // ---- where a fused result comes from ----

  /** r is s with fewer sections: source and score are those of s, the section scores those of the sections left. */
  ghost predicate PartOf(r: Result, s: Result) {
    && r.source == s.source && r.score == s.score && (r.sectionScores.None? <==> s.sectionScores.None?)
    && (forall id | id in r.sections :: id in s.sections)
    && (r.sectionScores.Some? ==> forall id ::
          && (id in r.sectionScores.value <==> id in r.sections && id in s.sectionScores.value)
          && (id in r.sectionScores.value ==> r.sectionScores.value[id] == s.sectionScores.value[id]))
  }

  lemma TrimIsPart(r: Result, kept: seq<string>)
    requires forall id | id in kept :: id in r.sections
    ensures PartOf(Trim(r, kept), r)
  {
  }

  /** The section is listed by result k, and neither seen before nor listed by an earlier one. */
  ghost predicate NewAt(seen: set<string>, rs: seq<Result>, k: nat, id: string)
    requires k < |rs|
  {
    id !in seen && id in rs[k].sections && forall j | 0 <= j < k :: id !in rs[j].sections
  }

  /** r is what is left of result k. */
  ghost predicate LeftOf(seen: set<string>, rs: seq<Result>, k: nat, r: Result) {
    k < |rs| && PartOf(r, rs[k]) && r.sections != [] && forall id :: id in r.sections <==> NewAt(seen, rs, k, id)
  }

  lemma NewLater(seen: set<string>, rs: seq<Result>, k: nat, id: string)
    requires 0 < k < |rs|
    ensures NewAt(seen, rs, k, id) <==> NewAt(seen + Elements(rs[0].sections), rs[1..], k - 1, id)
  {
    assert forall j | 0 < j < |rs| :: rs[1..][j - 1] == rs[j];
    if NewAt(seen + Elements(rs[0].sections), rs[1..], k - 1, id) {
      forall j | 0 <= j < k ensures id !in rs[j].sections { if j > 0 { assert rs[1..][j - 1] == rs[j]; } }
    }
  }

  lemma LeftLater(seen: set<string>, rs: seq<Result>, k: nat, r: Result)
    requires rs != [] && LeftOf(seen + Elements(rs[0].sections), rs[1..], k, r)
    ensures LeftOf(seen, rs, k + 1, r)
  {
    hide NewAt, PartOf;
    forall id ensures id in r.sections <==> NewAt(seen, rs, k + 1, id) { NewLater(seen, rs, k + 1, id); }
  }

  predicate Increasing(ps: seq<nat>) { forall i, j | 0 <= i < j < |ps| :: ps[i] < ps[j] }

  /** out[i] is what is left of result ps[i], in their order. */
  ghost predicate Leaves(seen: set<string>, rs: seq<Result>, out: seq<Result>, ps: seq<nat>) {
    && |ps| == |out| && Increasing(ps)
    && forall i | 0 <= i < |ps| :: LeftOf(seen, rs, ps[i], out[i])
  }

  ghost predicate Covers(seen: set<string>, rs: seq<Result>, ps: seq<nat>) {
    forall k, id | 0 <= k < |rs| && NewAt(seen, rs, k, id) :: k in ps
  }

  function After(ps: seq<nat>, first: bool): (r: seq<nat>)
    ensures |r| == |ps| + if first then 1 else 0
    ensures first ==> r[0] == 0 && forall i | 1 <= i < |r| :: r[i] == ps[i - 1] + 1
    ensures !first ==> forall i | 0 <= i < |r| :: r[i] == ps[i] + 1
  {
    (if first then [0] else []) + seq(|ps|, i requires 0 <= i < |ps| => ps[i] + 1)
  }

  lemma LeavesMore(seen: set<string>, rs: seq<Result>, out: seq<Result>, ps: seq<nat>, head: seq<Result>)
    requires rs != [] && Leaves(seen + Elements(rs[0].sections), rs[1..], out, ps)
    requires |head| == 0 || (|head| == 1 && LeftOf(seen, rs, 0, head[0]))
    ensures Leaves(seen, rs, head + out, After(ps, head != []))
  {
    hide LeftOf, After, Elements, Increasing;
    var qs, n := After(ps, head != []), |head|;
    AfterIncreases(ps, head != []);
    forall i | 0 <= i < |qs| ensures LeftOf(seen, rs, qs[i], (head + out)[i]) {
      if i >= n {
        LeftLater(seen, rs, ps[i - n], out[i - n]);
        assert qs[i] == ps[i - n] + 1;
      }
    }
  }

  lemma AfterIncreases(ps: seq<nat>, first: bool)
    requires Increasing(ps)
    ensures Increasing(After(ps, first))
  {
    var r := After(ps, first);
    hide After;
    forall i, j | 0 <= i < j < |r| ensures r[i] < r[j] {
      if first {
        assert r[j] == ps[j - 1] + 1;
        assert i > 0 ==> r[i] == ps[i - 1] + 1 && ps[i - 1] < ps[j - 1];
      } else {
        assert r[i] == ps[i] + 1 && r[j] == ps[j] + 1;
      }
    }
  }

  lemma CoversMore(seen: set<string>, rs: seq<Result>, ps: seq<nat>, first: bool)
    requires rs != [] && Covers(seen + Elements(rs[0].sections), rs[1..], ps)
    requires forall id | NewAt(seen, rs, 0, id) :: first
    ensures Covers(seen, rs, After(ps, first))
  {
    hide NewAt;
    var qs := After(ps, first);
    forall k, id | 0 <= k < |rs| && NewAt(seen, rs, k, id) ensures k in qs {
      if k > 0 {
        NewLater(seen, rs, k, id);
        var i :| 0 <= i < |ps| && ps[i] == k - 1;
        assert qs[if first then i + 1 else i] == k;
      } else {
        assert qs[0] == 0;
      }
    }
  }

  lemma HeadLeft(seen: set<string>, rs: seq<Result>)
    requires rs != []
    ensures var kept := Fresh(seen, rs[0].sections);
      && (kept != [] ==> LeftOf(seen, rs, 0, Trim(rs[0], kept)))
      && forall id | NewAt(seen, rs, 0, id) :: kept != []
  {
    FreshElements(seen, rs[0].sections);
    hide Fresh;
    TrimIsPart(rs[0], Fresh(seen, rs[0].sections));
  }

  /** Each fused result is what is left of one result, in their order, with its source, score and section scores. It
      holds the sections first listed there; and every result with such a section has its place. */
  lemma {:induction false} FusedFrom(seen: set<string>, rs: seq<Result>) returns (ps: seq<nat>)
    ensures Leaves(seen, rs, Fuse(seen, rs), ps) && Covers(seen, rs, ps)
    decreases rs
  {
    if rs == [] {
      ps := [];
    } else {
      var kept := Fresh(seen, rs[0].sections);
      var head := if kept == [] then [] else [Trim(rs[0], kept)];
      HeadLeft(seen, rs);
      ps := FusedFrom(seen + Elements(rs[0].sections), rs[1..]);
      LeavesMore(seen, rs, Fuse(seen + Elements(rs[0].sections), rs[1..]), ps, head);
      CoversMore(seen, rs, ps, head != []);
      ps := After(ps, head != []);
    }
  }

  // ---- relevance ----

  function FilterOne(r: Result, relevant: set<string>): seq<Result> {
    var sections := Filter((id: string) => id in relevant, r.sections);
    if sections == [] then [] else [Trim(r, sections)]
  }

  function FilterRelevant(rs: seq<Result>, relevant: set<string>): seq<Result> {
    if rs == [] then [] else FilterRelevant(rs[..|rs| - 1], relevant) + FilterOne(rs[|rs| - 1], relevant)
  }

  method BuildFiltered(rs: seq<Result>, relevant: seq<string>) returns (out: seq<Result>)
    ensures out == FilterRelevant(rs, Elements(relevant))
  {
    var keep := set id | id in relevant;
    out := [];
    assert rs[..0] == [];
    for i := 0 to |rs|
      invariant out == FilterRelevant(rs[..i], keep)
    {
      assert rs[..i + 1][..i] == rs[..i];
      var sections := KeepRelevant(rs[i].sections, keep);
      if |sections| == 0 { continue; }
      var scores := BuildSectionScores(rs[i].sectionScores, sections);
      out := out + [Result(rs[i].source, sections, rs[i].score, scores)];
    }
    assert rs[..|rs|] == rs;
  }

  method KeepRelevant(ids: seq<string>, keep: set<string>) returns (kept: seq<string>)
    ensures kept == Filter((id: string) => id in keep, ids)
  {
    kept := [];
    for i := 0 to |ids|
      invariant kept == Filter((id: string) => id in keep, ids[..i])
    {
      FilterOneMore((id: string) => id in keep, ids[..i], ids[i]);
      assert ids[..i] + [ids[i]] == ids[..i + 1];
      if ids[i] in keep { kept := kept + [ids[i]]; }
    }
    assert ids[..|ids|] == ids;
  }

  predicate HasRelevant(r: Result, relevant: set<string>) { exists id | id in r.sections :: id in relevant }

  function Grounded(relevant: set<string>): Result -> bool { r => HasRelevant(r, relevant) }

  function Ungrounded(relevant: set<string>): Result -> bool { r => !HasRelevant(r, relevant) }

  /** The results with a relevant section first, the others last, both in their old order. */
  function DemoteIrrelevant(rs: seq<Result>, relevant: set<string>): seq<Result> {
    Filter(Grounded(relevant), rs) + Filter(Ungrounded(relevant), rs)
  }

  method BuildDemoted(rs: seq<Result>, relevant: seq<string>) returns (out: seq<Result>)
    ensures out == DemoteIrrelevant(rs, Elements(relevant))
  {
    var keep := set id | id in relevant;
    var kept, demoted: seq<Result> := [], [];
    for i := 0 to |rs|
      invariant kept == Filter(Grounded(keep), rs[..i]) && demoted == Filter(Ungrounded(keep), rs[..i])
    {
      FilterOneMore(Grounded(keep), rs[..i], rs[i]);
      FilterOneMore(Ungrounded(keep), rs[..i], rs[i]);
      assert rs[..i] + [rs[i]] == rs[..i + 1];
      var hasRelevant := FindRelevant(rs[i].sections, keep);
      if hasRelevant { kept := kept + [rs[i]]; } else { demoted := demoted + [rs[i]]; }
    }
    assert rs[..|rs|] == rs;
    out := kept + demoted;
  }

  method FindRelevant(ids: seq<string>, keep: set<string>) returns (found: bool)
    ensures found <==> exists id | id in ids :: id in keep
  {
    for i := 0 to |ids|
      invariant forall id | id in ids[..i] :: id !in keep
    {
      if ids[i] in keep { return true; }
    }
    assert ids[..|ids|] == ids;
    return false;
  }

  /** The sections some result lists. */
  ghost predicate Listed(rs: seq<Result>, id: string) { exists r | r in rs :: id in r.sections }

  lemma {:induction false} ListedInSections(rs: seq<Result>, id: string)
    ensures Listed(rs, id) <==> id in SectionsOf(rs)
  {
    if rs != [] {
      ListedInSections(rs[1..], id);
      assert rs == [rs[0]] + rs[1..];
    }
  }

  lemma {:induction false} FilterRelevantLists(rs: seq<Result>, relevant: set<string>, id: string)
    ensures Listed(FilterRelevant(rs, relevant), id) <==> Listed(rs, id) && id in relevant
  {
    if rs != [] {
      var n := |rs| - 1;
      FilterRelevantLists(rs[..n], relevant, id);
      FilterMembers((x: string) => x in relevant, rs[n].sections);
      assert rs == rs[..n] + [rs[n]];
      ListedOneMore(rs[..n], [rs[n]], id);
      ListedOneMore(FilterRelevant(rs[..n], relevant), FilterOne(rs[n], relevant), id);
      assert Listed([rs[n]], id) <==> id in rs[n].sections by { assert rs[n] in [rs[n]]; }
      FilterOneLists(rs[n], relevant, id);
    }
  }

  lemma FilterOneLists(r: Result, relevant: set<string>, id: string)
    ensures Listed(FilterOne(r, relevant), id) <==> id in r.sections && id in relevant
  {
    FilterMembers((x: string) => x in relevant, r.sections);
    var sections := Filter((x: string) => x in relevant, r.sections);
    if sections != [] { assert Trim(r, sections) in FilterOne(r, relevant); }
  }

  lemma ListedOneMore(a: seq<Result>, b: seq<Result>, id: string)
    ensures Listed(a + b, id) <==> Listed(a, id) || Listed(b, id)
  {
    if r :| r in a && id in r.sections { assert r in a + b; }
    if r :| r in b && id in r.sections { assert r in a + b; }
  }

  lemma {:induction false} SplitKeepsAll(rs: seq<Result>, relevant: set<string>)
    ensures multiset(DemoteIrrelevant(rs, relevant)) == multiset(rs)
  {
    if rs != [] {
      SplitKeepsAll(rs[1..], relevant);
      assert rs == [rs[0]] + rs[1..];
    }
  }

  /** Demoting drops nothing. */
  lemma DemoteLists(rs: seq<Result>, relevant: set<string>, id: string)
    ensures Listed(DemoteIrrelevant(rs, relevant), id) <==> Listed(rs, id)
  {
    SplitKeepsAll(rs, relevant);
    assert forall r :: r in DemoteIrrelevant(rs, relevant) <==> r in multiset(DemoteIrrelevant(rs, relevant));
  }

  /** The first m results have a relevant section and the others none, each part in the order of rs. */
  ghost predicate InTwoParts(out: seq<Result>, m: nat, rs: seq<Result>, relevant: set<string>) {
    && m <= |out| && Subsequence(out[..m], rs) && Subsequence(out[m..], rs)
    && (forall i | 0 <= i < m :: HasRelevant(out[i], relevant))
    && forall i | m <= i < |out| :: !HasRelevant(out[i], relevant)
  }

  lemma PartsInOrder(a: seq<Result>, b: seq<Result>, rs: seq<Result>, relevant: set<string>)
    requires Subsequence(a, rs) && Subsequence(b, rs)
    requires (forall r | r in a :: HasRelevant(r, relevant)) && forall r | r in b :: !HasRelevant(r, relevant)
    ensures InTwoParts(a + b, |a|, rs, relevant)
  {
    hide HasRelevant, Subsequence;
    var out := a + b;
    assert out[..|a|] == a && out[|a|..] == b;
    forall i | 0 <= i < |a| ensures HasRelevant(out[i], relevant) { assert a[i] in a; }
    forall i | |a| <= i < |out| ensures !HasRelevant(out[i], relevant) { assert b[i - |a|] in b; }
  }

  /** Demoting puts the results with a relevant section first and the others last, each in the order they had. */
  lemma DemotedInOrder(rs: seq<Result>, relevant: set<string>)
    ensures multiset(DemoteIrrelevant(rs, relevant)) == multiset(rs)
    ensures exists m: nat :: InTwoParts(DemoteIrrelevant(rs, relevant), m, rs, relevant)
  {
    hide Subsequence, HasRelevant, InTwoParts, Filter;
    SplitKeepsAll(rs, relevant);
    FilterMembers(Grounded(relevant), rs);
    FilterMembers(Ungrounded(relevant), rs);
    FilterSubsequence(Grounded(relevant), rs);
    FilterSubsequence(Ungrounded(relevant), rs);
    PartsInOrder(Filter(Grounded(relevant), rs), Filter(Ungrounded(relevant), rs), rs, relevant);
  }

  /** Filtering keeps the order of sections and results; a result keeps its source, its score and the scores of the
      sections left. */
  lemma {:induction false} FilteredInOrder(rs: seq<Result>, relevant: set<string>)
    ensures var out := FilterRelevant(rs, relevant);
      && SectionsOf(out) == Filter((id: string) => id in relevant, SectionsOf(rs))
      && forall r | r in out :: r.sections != [] && exists s | s in rs :: PartOf(r, s)
  {
    hide PartOf;
    if rs != [] {
      var n := |rs| - 1;
      FilteredInOrder(rs[..n], relevant);
      FilterOneInOrder(rs[n], relevant);
      SectionsConcat(FilterRelevant(rs[..n], relevant), FilterOne(rs[n], relevant));
      SectionsConcat(rs[..n], [rs[n]]);
      assert rs == rs[..n] + [rs[n]];
      assert SectionsOf([rs[n]]) == rs[n].sections by { assert [rs[n]][1..] == []; }
      FilterConcat(relevant, SectionsOf(rs[..n]), rs[n].sections);
      forall r | r in FilterRelevant(rs, relevant)
        ensures r.sections != [] && exists s | s in rs :: PartOf(r, s)
      {
        if r in FilterOne(rs[n], relevant) { assert rs[n] in rs; }
      }
    }
  }

  lemma FilterOneInOrder(r: Result, relevant: set<string>)
    ensures SectionsOf(FilterOne(r, relevant)) == Filter((id: string) => id in relevant, r.sections)
    ensures forall x | x in FilterOne(r, relevant) :: x.sections != [] && PartOf(x, r)
  {
    var sections := Filter((id: string) => id in relevant, r.sections);
    FilterMembers((id: string) => id in relevant, r.sections);
    TrimIsPart(r, sections);
    if sections != [] { assert [Trim(r, sections)][1..] == []; }
  }

  lemma {:induction false} FilterConcat(relevant: set<string>, a: seq<string>, b: seq<string>)
    ensures Filter((id: string) => id in relevant, a + b)
         == Filter((id: string) => id in relevant, a) + Filter((id: string) => id in relevant, b)
  {
    if a == [] {
      assert a + b == b;
    } else {
      assert (a + b)[1..] == a[1..] + b;
      FilterConcat(relevant, a[1..], b);
    }
  }

  lemma FuseLists(a: seq<Result>, b: seq<Result>, id: string)
    ensures Listed(Fuse({}, a + b), id) <==> Listed(a, id) || Listed(b, id)
  {
    FuseListsFirst({}, a + b);
    FreshElements({}, SectionsOf(a + b));
    ListedInSections(Fuse({}, a + b), id);
    ListedInSections(a + b, id);
    ListedOneMore(a, b, id);
  }

  // ---- retrieval ----

  datatype Verdict = Verdict(valid: bool, score: real, explanation: string)

  datatype Evaluation = Evaluation(relevant: seq<string>, grounding: Verdict)

  /** What the orchestrator calls; the first argument tells one call from the next. A None answer is an error, a
      None function a stage that is not configured, or skipped. */
  datatype Stages = Stages(
    search: (nat, string) -> Option<seq<Result>>,
    decompose: Option<(nat, string) -> Option<seq<string>>>,
    evaluate: Option<(nat, seq<Result>) -> Option<Evaluation>>,
    reformulate: Option<(nat, string) -> Option<string>>,
    demote: bool,
    minScore: real,
    maxRounds: int)

  /** The query and its sub-questions. */
  function Others(query: string, subs: seq<string>): seq<string> { Filter((s: string) => s != query, subs) }

  function SearchEach(o: Stages, round: nat, queries: seq<string>): Option<seq<seq<Result>>> {
    if queries == [] then Some([])
    else
      var n := |queries| - 1;
      match SearchEach(o, round, queries[..n])
      case None => None
      case Some(groups) =>
        match o.search(round, queries[n])
        case None => None
        case Some(r) => Some(groups + [r])
  }

  /** One retrieval step. */
  function Retrieve(o: Stages, round: nat, query: string): Option<seq<Result>> {
    if o.decompose.None? then o.search(round, query)
    else
      match o.decompose.value(round, query)
      case None => None
      case Some(subs) =>
        match SearchEach(o, round, [query] + Others(query, subs))
        case None => None
        case Some(groups) => Some(Fuse({}, Concat(groups)))
  }

  method RunRetrieve(o: Stages, round: nat, query: string) returns (r: Option<seq<Result>>)
    ensures r == Retrieve(o, round, query)
  {
    if o.decompose.None? { return o.search(round, query); }
    var subs := o.decompose.value(round, query);
    if subs.None? { return None; }
    var queries := BuildQueries(query, subs.value);
    var groups := RunSearches(o, round, queries);
    if groups.None? { return None; }
    var out := FuseResults(groups.value);
    r := Some(out);
  }

  method BuildQueries(query: string, subs: seq<string>) returns (queries: seq<string>)
    ensures queries == [query] + Others(query, subs)
  {
    queries := [query];
    for i := 0 to |subs|
      invariant queries == [query] + Filter((s: string) => s != query, subs[..i])
    {
      FilterOneMore((s: string) => s != query, subs[..i], subs[i]);
      assert subs[..i] + [subs[i]] == subs[..i + 1];
      if subs[i] == query { continue; }
      queries := queries + [subs[i]];
    }
    assert subs[..|subs|] == subs;
  }

  method RunSearches(o: Stages, round: nat, queries: seq<string>) returns (groups: Option<seq<seq<Result>>>)
    ensures groups == SearchEach(o, round, queries)
  {
    var out: seq<seq<Result>> := [];
    for i := 0 to |queries|
      invariant SearchEach(o, round, queries[..i]) == Some(out)
    {
      assert queries[..i + 1][..i] == queries[..i];
      var r := o.search(round, queries[i]);
      if r.None? {
        SearchFails(o, round, queries, i + 1);
        return None;
      }
      out := out + [r.value];
    }
    assert queries[..|queries|] == queries;
    groups := Some(out);
  }

  lemma {:induction false} SearchFails(o: Stages, round: nat, queries: seq<string>, i: nat)
    requires i <= |queries| && SearchEach(o, round, queries[..i]).None?
    ensures SearchEach(o, round, queries).None?
    decreases |queries| - i
  {
    if i == |queries| {
      assert queries[..i] == queries;
    } else {
      assert queries[..i + 1][..i] == queries[..i];
      SearchFails(o, round, queries, i + 1);
    }
  }

  lemma {:induction false} GroupsAre(o: Stages, round: nat, queries: seq<string>)
    ensures SearchEach(o, round, queries).Some? <==> forall q | q in queries :: o.search(round, q).Some?
    ensures SearchEach(o, round, queries).Some? ==>
      var groups := SearchEach(o, round, queries).value;
      |groups| == |queries| && forall i | 0 <= i < |queries| :: o.search(round, queries[i]) == Some(groups[i])
  {
    if queries != [] {
      var n := |queries| - 1;
      GroupsAre(o, round, queries[..n]);
      assert queries == queries[..n] + [queries[n]];
    }
  }

  lemma {:induction false} ConcatLists(groups: seq<seq<Result>>, id: string)
    ensures Listed(Concat(groups), id) <==> exists g | g in groups :: Listed(g, id)
  {
    if groups != [] {
      ConcatLists(groups[1..], id);
      ListedOneMore(groups[0], Concat(groups[1..]), id);
      assert groups == [groups[0]] + groups[1..];
    }
  }

  /** A step with sub-questions searches the query and each of them, and no other text; it fails exactly when one of
      these searches does, and finds a section exactly when one of them does. */
  lemma EveryQuestionIsSearched(o: Stages, round: nat, query: string, subs: seq<string>)
    requires o.decompose.Some? && o.decompose.value(round, query) == Some(subs)
    ensures Retrieve(o, round, query).Some? <==> forall q | q == query || q in subs :: o.search(round, q).Some?
    ensures Retrieve(o, round, query).Some? ==> forall id ::
      Listed(Retrieve(o, round, query).value, id)
      <==> exists q :: (q == query || q in subs) && o.search(round, q).Some? && Listed(o.search(round, q).value, id)
  {
    var queries := [query] + Others(query, subs);
    FilterMembers((s: string) => s != query, subs);
    assert forall q :: q in queries <==> q == query || q in subs;
    GroupsAre(o, round, queries);
    if Retrieve(o, round, query).Some? {
      var groups := SearchEach(o, round, queries).value;
      forall id
        ensures Listed(Retrieve(o, round, query).value, id) <==>
          exists q :: (q == query || q in subs) && o.search(round, q).Some? && Listed(o.search(round, q).value, id)
      {
        FusedLists(Concat(groups), id);
        ConcatLists(groups, id);
        GroupOf(o, round, queries, groups, id);
      }
    }
  }

  lemma FusedLists(rs: seq<Result>, id: string)
    ensures Listed(Fuse({}, rs), id) <==> Listed(rs, id)
  {
    FuseLists(rs, [], id);
    assert rs + [] == rs;
  }

  lemma GroupOf(o: Stages, round: nat, queries: seq<string>, groups: seq<seq<Result>>, id: string)
    requires |groups| == |queries| && forall i | 0 <= i < |queries| :: o.search(round, queries[i]) == Some(groups[i])
    ensures (exists g | g in groups :: Listed(g, id))
       <==> exists q | q in queries :: o.search(round, q).Some? && Listed(o.search(round, q).value, id)
  {
    hide Listed;
    if g :| g in groups && Listed(g, id) {
      var i :| 0 <= i < |groups| && groups[i] == g;
      assert queries[i] in queries;
    }
    if q :| q in queries && o.search(round, q).Some? && Listed(o.search(round, q).value, id) {
      var i :| 0 <= i < |queries| && queries[i] == q;
      assert groups[i] in groups;
    }
  }

  // ---- the loop ----

  /** What a search ends with. evaluations, retrieved and judged tell how it came about: the number of verdicts,
      everything retrieved, and the relevant sections of the last verdict. */
  datatype Outcome =
    | Failed
    | Ended(results: seq<Result>, grounding: Option<Verdict>, rounds: nat,
            evaluations: nat, retrieved: seq<Result>, judged: Option<set<string>>)

  function Judge(o: Stages, results: seq<Result>, relevant: set<string>): seq<Result> {
    if o.demote then DemoteIrrelevant(results, relevant) else FilterRelevant(results, relevant)
  }

  predicate Confident(o: Stages, v: Verdict) { v.valid && v.score >= o.minScore }

  /** The loop from a state of it; was describes what happened before. */
  function Loop(o: Stages, query: string, was: Outcome): Outcome
    requires was.Ended? && o.evaluate.Some?
    decreases o.maxRounds - was.rounds
  {
    if was.results == [] then was
    else
      match o.evaluate.value(was.rounds, was.results)
      case None => Failed
      case Some(e) =>
        var now := Judged(o, was, e);
        if Confident(o, e.grounding) || o.reformulate.None? || was.rounds >= o.maxRounds then now
        else
          match o.reformulate.value(was.rounds, e.grounding.explanation)
          case None => Failed
          case Some(q) =>
            if q == "" || q == query then now
            else
              match Retrieve(o, was.rounds + 1, q)
              case None => Failed
              case Some(more) => Loop(o, query, Widened(now, more))
  }

  function Judged(o: Stages, was: Outcome, e: Evaluation): Outcome
    requires was.Ended?
  {
    var relevant := Elements(e.relevant);
    was.(results := Judge(o, was.results, relevant), grounding := Some(e.grounding),
         evaluations := was.evaluations + 1, judged := Some(relevant))
  }

  function Widened(now: Outcome, more: seq<Result>): Outcome
    requires now.Ended?
  {
    now.(results := Fuse({}, now.results + more), rounds := now.rounds + 1, retrieved := now.retrieved + more)
  }

  function Begin(results: seq<Result>): Outcome { Ended(results, None, 0, 0, results, None) }

  function Search(o: Stages, query: string): Outcome {
    match Retrieve(o, 0, query)
    case None => Failed
    case Some(results) => if o.evaluate.None? then Begin(results) else Loop(o, query, Begin(results))
  }

  /** None is an error; otherwise the results, the last verdict and the number of extra rounds. */
  method RunSearch(o: Stages, query: string) returns (r: Option<(seq<Result>, Option<Verdict>, nat)>)
    ensures match Search(o, query)
      case Failed => r.None?
      case Ended(results, grounding, rounds, _, _, _) => r == Some((results, grounding, rounds))
  {
    var first := RunRetrieve(o, 0, query);
    if first.None? { return None; }
    if o.evaluate.None? { return Some((first.value, None, 0)); }
    r := RunLoop(o, query, first.value);
  }

  method RunLoop(o: Stages, query: string, first: seq<Result>) returns (r: Option<(seq<Result>, Option<Verdict>, nat)>)
    requires o.evaluate.Some?
    ensures match Loop(o, query, Begin(first))
      case Failed => r.None?
      case Ended(results, grounding, rounds, _, _, _) => r == Some((results, grounding, rounds))
  {
    hide Judge, Retrieve, Fuse;
    var results, rounds: nat := first, 0;
    var grounding: Option<Verdict> := None;
    ghost var now := Begin(first);
    while |results| > 0
      invariant now.Ended? && now.results == results && now.rounds == rounds && now.grounding == grounding
      invariant Loop(o, query, now) == Loop(o, query, Begin(first))
      decreases o.maxRounds - rounds
    {
      var evaluation := o.evaluate.value(rounds, results);
      if evaluation.None? { return None; }
      now := Judged(o, now, evaluation.value);
      results := RunJudge(o, results, evaluation.value.relevant);
      var verdict := evaluation.value.grounding;
      grounding := Some(verdict);
      var confident := verdict.valid && verdict.score >= o.minScore;
      if confident || o.reformulate.None? || rounds >= o.maxRounds { break; }
      var reformulated := o.reformulate.value(rounds, verdict.explanation);
      if reformulated.None? { return None; }
      if reformulated.value == "" || reformulated.value == query { break; }
      rounds := rounds + 1;
      var more := RunRetrieve(o, rounds, reformulated.value);
      if more.None? { return None; }
      now := Widened(now, more.value);
      results := FuseTwo(results, more.value);
    }
    r := Some((results, grounding, rounds));
  }

  method RunJudge(o: Stages, results: seq<Result>, relevant: seq<string>) returns (out: seq<Result>)
    ensures out == Judge(o, results, Elements(relevant))
  {
    if o.demote { out := BuildDemoted(results, relevant); } else { out := BuildFiltered(results, relevant); }
  }

  method FuseTwo(a: seq<Result>, b: seq<Result>) returns (out: seq<Result>)
    ensures out == Fuse({}, a + b)
  {
    out := FuseResults([a, b]);
    assert [a, b][1..] == [b] && [b][1..] == [];
    assert Concat([b]) == b + [];
    assert Concat([a, b]) == a + b;
  }

  // ---- whole searches ----

  /** What every state of the loop satisfies. */
  ghost predicate Sound(o: Stages, was: Outcome) {
    was.Ended? ==>
      && was.rounds <= Rounds(o) && was.rounds <= was.evaluations <= was.rounds + 1
      && (forall id | Listed(was.results, id) :: Listed(was.retrieved, id))
      && (o.demote ==> forall id | Listed(was.retrieved, id) :: Listed(was.results, id))
      && (was.grounding.Some? <==> was.evaluations > 0)
  }

  function Rounds(o: Stages): nat { if o.maxRounds < 0 then 0 else o.maxRounds }

  /** The last verdict has been applied: every section left is relevant to it, when filtering. */
  ghost predicate Applied(o: Stages, was: Outcome) {
    was.Ended? && !o.demote && was.results != [] ==>
      was.judged.Some? && forall id | Listed(was.results, id) :: id in was.judged.value
  }

  /** Nothing judged since the last retrieval. */
  predicate Fresher(was: Outcome) { was.Ended? && was.evaluations == was.rounds }

  lemma JudgedSound(o: Stages, was: Outcome, e: Evaluation)
    requires was.Ended? && Sound(o, was) && Fresher(was)
    ensures var now := Judged(o, was, e); Sound(o, now) && Applied(o, now) && now.evaluations == now.rounds + 1
  {
    var now, relevant := Judged(o, was, e), Elements(e.relevant);
    forall id ensures Listed(now.results, id) <==> Listed(was.results, id) && (o.demote || id in relevant) {
      if o.demote { DemoteLists(was.results, relevant, id); } else { FilterRelevantLists(was.results, relevant, id); }
    }
  }

  lemma WidenedSound(o: Stages, now: Outcome, more: seq<Result>)
    requires now.Ended? && Sound(o, now) && now.evaluations == now.rounds + 1 && now.rounds < o.maxRounds
    ensures Sound(o, Widened(now, more)) && Fresher(Widened(now, more))
  {
    forall id
      ensures Listed(Widened(now, more).results, id) <==> Listed(now.results, id) || Listed(more, id)
      ensures Listed(Widened(now, more).retrieved, id) <==> Listed(now.retrieved, id) || Listed(more, id)
    {
      FuseLists(now.results, more, id);
      ListedOneMore(now.retrieved, more, id);
    }
  }

  lemma {:induction false} LoopSound(o: Stages, query: string, was: Outcome)
    requires was.Ended? && o.evaluate.Some? && Sound(o, was) && Fresher(was)
    ensures Sound(o, Loop(o, query, was)) && Applied(o, Loop(o, query, was))
    decreases o.maxRounds - was.rounds
  {
    hide Sound, Applied, Judge, Retrieve, Confident, Fresher;
    if was.results == [] {
      NothingApplies(o, was);
    } else {
      var answer := o.evaluate.value(was.rounds, was.results);
      if answer.Some? {
        var e := answer.value;
        JudgedSound(o, was, e);
        var now := Judged(o, was, e);
        if !(Confident(o, e.grounding) || o.reformulate.None? || was.rounds >= o.maxRounds) {
          var q := o.reformulate.value(was.rounds, e.grounding.explanation);
          if q.Some? && q.value != "" && q.value != query && Retrieve(o, was.rounds + 1, q.value).Some? {
            var more := Retrieve(o, was.rounds + 1, q.value).value;
            WidenedSound(o, now, more);
            LoopSound(o, query, Widened(now, more));
          }
        }
      }
      FailedSound(o);
    }
  }

  lemma NothingApplies(o: Stages, was: Outcome)
    requires was.Ended? && was.results == []
    ensures Applied(o, was)
  {
  }

  lemma FailedSound(o: Stages)
    ensures Sound(o, Failed) && Applied(o, Failed)
  {
  }

  lemma BeginSound(o: Stages, results: seq<Result>)
    ensures Sound(o, Begin(results)) && Fresher(Begin(results))
  {
  }

  /** A search evaluates at most maxRounds + 1 times and returns only what it retrieved. Demoting loses no retrieved
      section; filtering returns only sections the last verdict calls relevant; and the answer carries a verdict
      exactly when there was one. */
  lemma SearchCorrect(o: Stages, query: string)
    requires Search(o, query).Ended?
    ensures var r := Search(o, query);
      && r.evaluations <= Rounds(o) + 1 && r.rounds <= Rounds(o)
      && (forall id | Listed(r.results, id) :: Listed(r.retrieved, id))
      && (o.demote || o.evaluate.None? ==> forall id | Listed(r.retrieved, id) :: Listed(r.results, id))
      && (o.evaluate.Some? && !o.demote && r.results != [] ==>
            r.judged.Some? && forall id | Listed(r.results, id) :: id in r.judged.value)
      && (r.grounding.Some? <==> r.evaluations > 0)
  {
    var first := Retrieve(o, 0, query).value;
    BeginSound(o, first);
    if o.evaluate.Some? { LoopSound(o, query, Begin(first)); }
  }

  /** A confident verdict ends the search, as do the last round allowed and the want of a reformulator. */
  lemma VerdictEndsSearch(o: Stages, query: string, was: Outcome, e: Evaluation)
    requires was.Ended? && o.evaluate.Some? && was.results != [] && o.evaluate.value(was.rounds, was.results) == Some(e)
    requires (e.grounding.valid && e.grounding.score >= o.minScore) || o.reformulate.None? || was.rounds >= o.maxRounds
    ensures var end := Loop(o, query, was);
      end.Ended? && end.rounds == was.rounds && end.grounding == Some(e.grounding)
      && end.results == Judge(o, was.results, Elements(e.relevant))
  {
    hide Judge;
  }

  /** Any other verdict has the query reformulated: an error ends the search as an error, a reformulation that says
      nothing new ends it, and another one starts a further round. */
  lemma VerdictGoesOn(o: Stages, query: string, was: Outcome, e: Evaluation)
    requires was.Ended? && o.evaluate.Some? && was.results != [] && o.evaluate.value(was.rounds, was.results) == Some(e)
    requires !(e.grounding.valid && e.grounding.score >= o.minScore) && o.reformulate.Some? && was.rounds < o.maxRounds
    ensures var end := Loop(o, query, was);
      match o.reformulate.value(was.rounds, e.grounding.explanation)
      case None => end == Failed
      case Some(q) =>
        if q == "" || q == query then
          end.Ended? && end.rounds == was.rounds && end.grounding == Some(e.grounding)
          && end.results == Judge(o, was.results, Elements(e.relevant))
        else
          (Retrieve(o, was.rounds + 1, q).None? ==> end == Failed) && (end.Ended? ==> end.rounds > was.rounds)
  {
    hide Judge, Retrieve, Fuse;
    var q := o.reformulate.value(was.rounds, e.grounding.explanation);
    if q.Some? && Retrieve(o, was.rounds + 1, q.value).Some? {
      RoundsGrow(o, query, Widened(Judged(o, was, e), Retrieve(o, was.rounds + 1, q.value).value));
    }
  }

  lemma {:induction false} RoundsGrow(o: Stages, query: string, was: Outcome)
    requires was.Ended? && o.evaluate.Some?
    ensures Loop(o, query, was).Ended? ==> Loop(o, query, was).rounds >= was.rounds
    decreases o.maxRounds - was.rounds
  {
    hide Judge, Retrieve, Confident, Fuse;
    if was.results != [] {
      var answer := o.evaluate.value(was.rounds, was.results);
      if answer.Some? && o.reformulate.Some? && was.rounds < o.maxRounds {
        var now, q := Judged(o, was, answer.value), o.reformulate.value(was.rounds, answer.value.grounding.explanation);
        if q.Some? && Retrieve(o, was.rounds + 1, q.value).Some? {
          RoundsGrow(o, query, Widened(now, Retrieve(o, was.rounds + 1, q.value).value));
        }
      }
    }
  }
}
