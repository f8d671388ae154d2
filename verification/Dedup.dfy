/** index/pipeline/duplicate_content_results_transformer.go: of the sections of a result that lie on one branch of
    a document, one level is kept. */
module Dedup {
  import opened Order

  /** A stored section: the ids from the root of its document down to itself. */
  datatype Section = Section(id: string, branch: seq<string>)

  datatype Result = Result(source: string, sections: seq<string>, score: real, sectionScores: map<string, real>)

  /** The branches of the stored sections. */
  type Store = map<string, seq<string>>

  /** A branch ends with its section, and the stored sections on it have its prefixes as branches. */
  predicate Consistent(store: Store) {
    forall id | id in store ::
      store[id] != [] && store[id][|store[id]| - 1] == id && PrefixesStored(store, store[id])
  }

  predicate PrefixesStored(store: Store, branch: seq<string>) {
    forall k | 0 <= k < |branch| && branch[k] in store :: store[branch[k]] == branch[..k + 1]
  }

  predicate IsParentOf(section: Section, child: Section) {
    var n := |child.branch|;
    n >= 2 && child.branch[n - 2] == section.id
  }

  predicate IsAncestor(parent: Section, child: Section) {
    forall i | 0 <= i < |parent.branch| :: i < |child.branch| && parent.branch[i] == child.branch[i]
  }

  predicate HasChild(ss: seq<Section>, parent: Section) {
    exists s | s in ss :: parent.id != s.id && IsParentOf(parent, s)
  }

  predicate HasAncestor(ss: seq<Section>, s: Section) { exists o | o in ss :: o.id != s.id && IsAncestor(o, s) }

  function Found(store: Store, ids: seq<string>): seq<Section> {
    if ids == [] then []
    else
      var id := ids[|ids| - 1];
      Found(store, ids[..|ids| - 1]) + if id in store then [Section(id, store[id])] else []
  }

  function Childless(ss: seq<Section>): Section -> bool { s => !HasChild(ss, s) }

  function Topmost(ss: seq<Section>): Section -> bool { s => !HasAncestor(ss, s) }

  /** The sections none of whose children is present. */
  function ChildrenOnly(ss: seq<Section>): seq<Section> { Filter(Childless(ss), ss) }

  function Kept(ss: seq<Section>): seq<Section> { Filter(Topmost(ChildrenOnly(ss)), ChildrenOnly(ss)) }

  function Ids(ss: seq<Section>): (r: seq<string>)
    ensures |r| == |ss| && forall i | 0 <= i < |ss| :: r[i] == ss[i].id
  {
    seq(|ss|, i requires 0 <= i < |ss| => ss[i].id)
  }

  function Updated(store: Store, r: Result): Result { r.(sections := Ids(Kept(Found(store, r.sections)))) }

  // ---- the loops ----

  method GetChildren(sections: seq<Section>, parent: Section) returns (children: seq<Section>)
    ensures children == [] <==> !HasChild(sections, parent)
    ensures forall c :: c in children <==> c in sections && parent.id != c.id && IsParentOf(parent, c)
  {
    children := [];
    for i := 0 to |sections|
      invariant forall c :: c in children <==> c in sections[..i] && parent.id != c.id && IsParentOf(parent, c)
    {
      if parent.id != sections[i].id && IsParentOf(parent, sections[i]) { children := children + [sections[i]]; }
    }
    assert sections[..|sections|] == sections;
    assert children != [] ==> children[0] in children;
  }

  method FindAncestor(sections: seq<Section>, section: Section) returns (found: bool)
    ensures found == HasAncestor(sections, section)
  {
    for i := 0 to |sections|
      invariant !HasAncestor(sections[..i], section)
    {
      if sections[i].id != section.id && IsAncestor(sections[i], section) { return true; }
    }
    assert sections[..|sections|] == sections;
    return false;
  }

  method FindSections(store: Store, ids: seq<string>) returns (sections: seq<Section>)
    ensures sections == Found(store, ids)
  {
    sections := [];
    for i := 0 to |ids|
      invariant sections == Found(store, ids[..i])
    {
      assert ids[..i + 1][..i] == ids[..i];
      if ids[i] in store { sections := sections + [Section(ids[i], store[ids[i]])]; }
    }
    assert ids[..|ids|] == ids;
  }

  method KeepSections(sections: seq<Section>) returns (kept: seq<string>)
    ensures kept == Ids(Kept(sections))
  {
    var childrenOnly: seq<Section> := [];
    for i := 0 to |sections|
      invariant childrenOnly == Filter(Childless(sections), sections[..i])
    {
      FilterOneMore(Childless(sections), sections[..i], sections[i]);
      assert sections[..i] + [sections[i]] == sections[..i + 1];
      var children := GetChildren(sections, sections[i]);
      if |children| > 0 { continue; }
      childrenOnly := childrenOnly + [sections[i]];
    }
    assert sections[..|sections|] == sections;
    kept := KeepTopmost(childrenOnly);
  }

  method KeepTopmost(childrenOnly: seq<Section>) returns (kept: seq<string>)
    ensures kept == Ids(Filter(Topmost(childrenOnly), childrenOnly))
  {
    kept := [];
    for i := 0 to |childrenOnly|
      invariant kept == Ids(Filter(Topmost(childrenOnly), childrenOnly[..i]))
    {
      FilterOneMore(Topmost(childrenOnly), childrenOnly[..i], childrenOnly[i]);
      assert childrenOnly[..i] + [childrenOnly[i]] == childrenOnly[..i + 1];
      var covered := FindAncestor(childrenOnly, childrenOnly[i]);
      if covered { continue; }
      kept := kept + [childrenOnly[i].id];
    }
    assert childrenOnly[..|childrenOnly|] == childrenOnly;
  }

  method TransformResults(store: Store, results: seq<Result>) returns (merged: seq<Result>)
    ensures |merged| == |results| && forall i | 0 <= i < |results| :: merged[i] == Updated(store, results[i])
  {
    merged := [];
    for i := 0 to |results|
      invariant |merged| == i && forall j | 0 <= j < i :: merged[j] == Updated(store, results[j])
    {
      var r := results[i];
      var sections := FindSections(store, r.sections);
      var kept := KeepSections(sections);
      merged := merged + [Result(r.source, kept, r.score, r.sectionScores)];
    }
  }

  // ---- what is kept ----

  predicate Comparable(a: seq<string>, b: seq<string>) { a <= b || b <= a }

  predicate FromStore(store: Store, ss: seq<Section>) { forall s | s in ss :: s.id in store && s.branch == store[s.id] }

  lemma {:induction false} FoundInStore(store: Store, ids: seq<string>)
    ensures FromStore(store, Found(store, ids))
    ensures forall id | id in ids && id in store :: Section(id, store[id]) in Found(store, ids)
    ensures forall s | s in Found(store, ids) :: s.id in ids
  {
    if ids != [] {
      var n := |ids| - 1;
      FoundInStore(store, ids[..n]);
      assert ids == ids[..n] + [ids[n]];
    }
  }

  lemma AncestorIsPrefix(a: Section, b: Section)
    ensures IsAncestor(a, b) <==> a.branch <= b.branch
  {
    if IsAncestor(a, b) && a.branch != [] {
      var n := |a.branch| - 1;
      assert a.branch[n] in b.branch;
    }
  }

  lemma ChildExtends(store: Store, s: Section, c: Section)
    requires Consistent(store) && s.id in store && s.branch == store[s.id] && c.id in store && c.branch == store[c.id]
    requires IsParentOf(s, c)
    ensures s.branch < c.branch
  {
    var k := |c.branch| - 2;
    assert PrefixesStored(store, c.branch);
    assert store[c.branch[k]] == c.branch[..k + 1];
  }

  function Longest(ss: seq<Section>): (n: nat)
    ensures forall s | s in ss :: |s.branch| <= n
  {
    if ss == [] then 0 else
      var m := Longest(ss[1..]);
      if |ss[0].branch| > m then |ss[0].branch| else m
  }

  /** Below a found section there is a found one without children, maybe itself. */
  lemma {:induction false} DescendsToChildless(store: Store, ss: seq<Section>, s: Section) returns (l: Section)
    requires Consistent(store) && FromStore(store, ss) && s in ss
    ensures l in ChildrenOnly(ss) && s.branch <= l.branch
    decreases Longest(ss) - |s.branch|
  {
    FilterMembers(Childless(ss), ss);
    l := s;
    if c :| c in ss && s.id != c.id && IsParentOf(s, c) {
      ChildExtends(store, s, c);
      l := DescendsToChildless(store, ss, c);
    }
  }

  /** Above a candidate there is a kept one, maybe itself. */
  lemma {:induction false} ClimbsToKept(store: Store, ss: seq<Section>, l: Section) returns (k: Section)
    requires Consistent(store) && FromStore(store, ss) && l in ChildrenOnly(ss)
    ensures k in Kept(ss) && k.branch <= l.branch
    decreases |l.branch|
  {
    var cs := ChildrenOnly(ss);
    FilterMembers(Childless(ss), ss);
    FilterMembers(Topmost(cs), cs);
    k := l;
    if o :| o in cs && o.id != l.id && IsAncestor(o, l) {
      ProperAncestor(store, o, l);
      hide Kept, ChildrenOnly, Consistent, IsAncestor, HasAncestor, HasChild;
      k := ClimbsToKept(store, ss, o);
    }
  }

  lemma ProperAncestor(store: Store, o: Section, l: Section)
    requires Consistent(store) && o.id in store && o.branch == store[o.id] && l.id in store && l.branch == store[l.id]
    requires o.id != l.id && IsAncestor(o, l)
    ensures o.branch < l.branch
  {
    AncestorIsPrefix(o, l);
    assert o.branch != l.branch by {
      assert o.branch[|o.branch| - 1] == o.id && l.branch[|l.branch| - 1] == l.id;
    }
  }

  /** Some section of ss lies directly under s. */
  predicate HasDirect(ss: seq<Section>, s: Section) { exists c | c in ss :: c.branch == s.branch + [c.id] }

  lemma DirectIsChild(store: Store, ss: seq<Section>, s: Section)
    requires Consistent(store) && FromStore(store, ss) && s in ss
    ensures HasChild(ss, s) <==> HasDirect(ss, s)
  {
    if c :| c in ss && s.id != c.id && IsParentOf(s, c) {
      var n := |c.branch|;
      assert PrefixesStored(store, c.branch) && c.branch[n - 2] == s.id;
      assert c.branch[..n - 1] == s.branch;
      assert c.branch == c.branch[..n - 1] + [c.branch[n - 1]];
    }
    if c :| c in ss && c.branch == s.branch + [c.id] {
      assert c.branch[|c.branch| - 2] == s.branch[|s.branch| - 1] == s.id;
      assert store[c.id] == c.branch != s.branch == store[s.id];
    }
  }

  /** Exactly the found sections are kept, in their order, that have no found section directly under them and lie
      below no found one of which the same is true. */
  lemma KeptExactly(store: Store, r: Result)
    requires Consistent(store)
    ensures var kept, found := Kept(Found(store, r.sections)), Found(store, r.sections);
      && Subsequence(kept, found)
      && forall s :: s in kept <==>
           s in found && !HasDirect(found, s) && !exists o | o in found :: !HasDirect(found, o) && o.branch < s.branch
  {
    var found := Found(store, r.sections);
    var cs, kept := ChildrenOnly(found), Kept(found);
    FoundInStore(store, r.sections);
    FilterMembers(Childless(found), found);
    FilterMembers(Topmost(cs), cs);
    FilterSubsequence(Childless(found), found);
    FilterSubsequence(Topmost(cs), cs);
    SubsequenceChains(kept, cs, found);
    forall s | s in found ensures s in cs <==> !HasDirect(found, s) { DirectIsChild(store, found, s); }
    hide HasDirect, IsAncestor, Kept, ChildrenOnly, Consistent;
    forall s, o | s in found && o in found
      ensures o.id != s.id && IsAncestor(o, s) <==> o.branch < s.branch
    {
      AncestorIsProper(store, o, s);
    }
    forall s ensures s in kept <==>
      s in found && !HasDirect(found, s) && !exists o | o in found :: !HasDirect(found, o) && o.branch < s.branch
    {
      if s in cs { TopmostIs(cs, found, s); }
    }
  }

  lemma AncestorIsProper(store: Store, o: Section, s: Section)
    requires Consistent(store) && o.id in store && o.branch == store[o.id] && s.id in store && s.branch == store[s.id]
    ensures o.id != s.id && IsAncestor(o, s) <==> o.branch < s.branch
  {
    AncestorIsPrefix(o, s);
    if o.id != s.id && IsAncestor(o, s) { ProperAncestor(store, o, s); }
  }

  lemma TopmostIs(cs: seq<Section>, found: seq<Section>, s: Section)
    requires s in found && forall o | o in cs :: o in found
    requires forall o | o in found :: o in cs <==> !HasDirect(found, o)
    requires forall o | o in found :: o.id != s.id && IsAncestor(o, s) <==> o.branch < s.branch
    ensures HasAncestor(cs, s) <==> exists o | o in found :: !HasDirect(found, o) && o.branch < s.branch
  {
    hide HasDirect, IsAncestor;
  }

  /** In each result the kept sections are found ones; no two different ones lie on one branch;
      every found section is kept, above a kept one or below one; so a result that finds something keeps something. */
  lemma KeptCorrect(store: Store, r: Result)
    requires Consistent(store)
    ensures var kept, found := Kept(Found(store, r.sections)), Found(store, r.sections);
      && Updated(store, r).sections == Ids(kept) && (forall k | k in kept :: k in found)
      && (forall a, b | a in kept && b in kept && a.id != b.id :: !Comparable(a.branch, b.branch))
      && (forall s | s in found :: exists k | k in kept :: Comparable(k.branch, s.branch))
      && (found != [] ==> kept != [])
  {
    var found := Found(store, r.sections);
    var cs, kept := ChildrenOnly(found), Kept(found);
    FoundInStore(store, r.sections);
    FilterMembers(Childless(found), found);
    FilterMembers(Topmost(cs), cs);
    forall a, b | a in kept && b in kept && a.id != b.id ensures !Comparable(a.branch, b.branch) {
      AncestorIsPrefix(a, b);
      AncestorIsPrefix(b, a);
    }
    forall s | s in found ensures exists k | k in kept :: Comparable(k.branch, s.branch) {
      var l := DescendsToChildless(store, found, s);
      var k := ClimbsToKept(store, found, l);
      assert Comparable(k.branch, s.branch);
    }
    if found != [] { assert found[0] in found; }
  }
}
