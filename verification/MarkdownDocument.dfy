/** markdown/parser.go, Parse as a whole: the walk links the sections, and the pass after it prunes them in place. */
module MarkdownDocument {
  import opened Wrappers
  import opened SectionLists
  import opened MarkdownWalk
  import P = Prune
  import opened Prune
  import opened MarkdownTree
  import opened MarkdownParser
  import opened MarkdownPruner

  /** The objects of section i and of all below it: those whose branch passes through i. */
  function Subtree(all: seq<Section>, secs: seq<Sec>, i: nat): set<Section> {
    set j | 0 <= j < |all| && j < |secs| && i in secs[j].branch :: all[j]
  }

  ghost predicate Framed(all: seq<Section>, secs: seq<Sec>)
    reads all
  {
    forall i | 0 <= i < |all| :: all[i].Repr == Subtree(all, secs, i)
  }

  ghost method Frame(all: seq<Section>, secs: seq<Sec>)
    requires Mirrors(all, secs)
    modifies all`Repr
    ensures Mirrors(all, secs) && Framed(all, secs)
  {
    forall o | o in all { o.Repr := Subtree(all, secs, o.id); }
    forall i | 0 <= i < |all| ensures all[i].Shows(all, i, secs[i]) {
      assert old(all[i].Shows(all, i, secs[i]));
    }
  }

  lemma KidApart(w: Walk, i: nat, k: nat, m: nat)
    requires Sound(w) && i < |w.secs| && k < |w.secs| && m < |w.secs| && w.secs[k].parent == i
    ensures k in w.secs[m].branch ==> i in w.secs[m].branch && m != i
  {
    OwnBranch(w, i);
    OwnBranch(w, k);
    if k in w.secs[m].branch {
      BranchPrefix(w, m, k);
      assert w.secs[k].branch[|w.secs[i].branch| - 1] in w.secs[m].branch;
      assert i in w.secs[k].branch;
    }
  }

  /** A child of i stands on any branch right after the branch of i. */
  lemma PlaceOnBranch(w: Walk, i: nat, k: nat, m: nat)
    requires Sound(w) && i < |w.secs| && k < |w.secs| && m < |w.secs| && w.secs[k].parent == i
    ensures k in w.secs[m].branch ==>
      |w.secs[i].branch| < |w.secs[m].branch| && w.secs[m].branch[|w.secs[i].branch|] == k
  {
    OwnBranch(w, k);
    if k in w.secs[m].branch {
      BranchPrefix(w, m, k);
      assert w.secs[k].branch[|w.secs[i].branch|] == k;
    }
  }

  lemma SiblingsApart(w: Walk, i: nat, k: nat, h: nat, m: nat)
    requires Sound(w) && i < |w.secs| && k < |w.secs| && h < |w.secs| && m < |w.secs|
    requires w.secs[k].parent == w.secs[h].parent == i && k != h
    ensures !(k in w.secs[m].branch && h in w.secs[m].branch)
  {
    PlaceOnBranch(w, i, k, m);
    PlaceOnBranch(w, i, h, m);
  }

  lemma Distinct(all: seq<Section>, secs: seq<Sec>)
    requires Mirrors(all, secs)
    ensures forall i, j | 0 <= i < |all| && 0 <= j < |all| :: all[i] == all[j] ==> i == j
  {
    assert forall i | 0 <= i < |all| :: all[i].Shows(all, i, secs[i]);
  }

  lemma KidOwned(all: seq<Section>, w: Walk, i: nat, k: nat)
    requires Mirrors(all, w.secs) && Framed(all, w.secs) && Sound(w) && i < |all| && k < |all| && w.secs[k].parent == i
    ensures all[k].parent == all[i] && all[k] in all[i].Repr && all[k].Repr <= all[i].Repr && all[i] !in all[k].Repr
  {
    assert all[k].Shows(all, k, w.secs[k]);
    OwnBranch(w, k);
    KidApart(w, i, k, k);
    Distinct(all, w.secs);
    hide Sound, Mirrors;
    forall o | o in all[k].Repr ensures o in all[i].Repr && o != all[i] {
      var m :| 0 <= m < |all| && k in w.secs[m].branch && o == all[m];
      KidApart(w, i, k, m);
    }
  }

  lemma KidsApart(all: seq<Section>, w: Walk, i: nat, k: nat, h: nat)
    requires Mirrors(all, w.secs) && Framed(all, w.secs) && Sound(w) && i < |all| && k < |all| && h < |all|
    requires w.secs[k].parent == w.secs[h].parent == i && k != h
    ensures all[k].Repr !! all[h].Repr
  {
    hide Sound;
    Distinct(all, w.secs);
    forall o | o in all[k].Repr ensures o !in all[h].Repr {
      var m :| 0 <= m < |all| && k in w.secs[m].branch && o == all[m];
      forall n | 0 <= n < |all| && h in w.secs[n].branch ensures all[n] != o {
        SiblingsApart(w, i, k, h, m);
      }
    }
  }

  lemma {:induction false} KidsRise(secs: seq<Sec>, p: nat)
    ensures forall j, h | 0 <= j < h < |ChildrenOf(secs, p)| :: ChildrenOf(secs, p)[j] < ChildrenOf(secs, p)[h]
  {
    if secs != [] {
      var init := ChildrenOf(secs[..|secs| - 1], p);
      KidsRise(secs[..|secs| - 1], p);
      ChildrenAre(secs[..|secs| - 1], p);
      assert forall j | 0 <= j < |init| :: init[j] in init;
    }
  }

  /** The children are apart, and below their parent. */
  lemma OwnsKids(all: seq<Section>, w: Walk, i: nat)
    requires Mirrors(all, w.secs) && Framed(all, w.secs) && Sound(w) && Listed(w.secs) && i < |all|
    ensures all[i] in all[i].Repr && Owns(all[i])
  {
    var s, kids := all[i], w.secs[i].kids;
    assert s.Shows(all, i, w.secs[i]);
    OwnBranch(w, i);
    KidsRise(w.secs, i);
    assert kids == ChildrenOf(w.secs, i);
    hide Sound, ChildrenOf, Framed;
    forall j | 0 <= j < |kids|
      ensures s.sections[j].parent == s && s.sections[j] in s.Repr
      ensures s.sections[j].Repr <= s.Repr && s !in s.sections[j].Repr
    {
      KidOwned(all, w, i, kids[j]);
    }
    forall j, h | 0 <= j < h < |kids| ensures s.sections[j].Repr !! s.sections[h].Repr {
      KidsApart(all, w, i, kids[j], kids[h]);
    }
  }

  /** The objects of the walk stand for its tree. */
  lemma {:induction false} ObjectsAreTree(all: seq<Section>, w: Walk, i: nat)
    requires Mirrors(all, w.secs) && Framed(all, w.secs) && Sound(w) && Listed(w.secs) && i < |all|
    ensures Is(all[i], TreeOf(w.secs, i))
    decreases |all| - i
  {
    OwnsKids(all, w, i);
    var s, t, kids := all[i], TreeOf(w.secs, i), w.secs[i].kids;
    assert s.Shows(all, i, w.secs[i]);
    hide Sound, Framed, Owns;
    forall j | 0 <= j < |kids| ensures s.sections[j] == all[kids[j]] && Is(s.sections[j], t.kids[j]) {
      ObjectsAreTree(all, w, kids[j]);
    }
  }

  /** The pass after the walk. */
  method Finish(p: Parser, ghost w: Walk)
    requires p.Is(w) && Sound(w) && Listed(w.secs)
    modifies p`roots, p.Repr
    ensures Stand(p.roots, P.Prune([TreeOf(w.secs, 0)], None), p.Repr) && Under(p.roots, null)
  {
    StandUp(p, w);
    hide Sound, Listed, Is, TreeOf;
    var kept := PruneRedundant(p.roots, null, [TreeOf(w.secs, 0)], None, p.Repr);
    p.roots := kept;
  }

  /** Every object learns its subtree. */
  ghost method StandUp(p: Parser, w: Walk)
    requires p.Is(w) && Sound(w) && Listed(w.secs)
    modifies p.Repr`Repr
    ensures Stand(p.roots, [TreeOf(w.secs, 0)], p.Repr) && Under(p.roots, null)
  {
    hide Sound, Is, Listed, TreeOf, Framed, WellPlaced;
    Frame(p.all, w.secs);
    RootAlone(p, w);
    ObjectsAreTree(p.all, w, 0);
  }

  lemma RootAlone(p: Parser, w: Walk)
    requires p.Is(w) && Sound(w)
    ensures p.roots == [p.all[0]] && p.all[0].parent == null
    ensures Framed(p.all, w.secs) ==> p.all[0].Repr <= set o | o in p.all
  {
    assert WellPlaced(w.secs, 0);
    assert p.all[0].Shows(p.all, 0, w.secs[0]);
  }

  /** The whole parse: its root sections stand for the pruned tree of the walk, apart and with exact parents. It fails
      exactly when the walk does, and leaves nothing redundant exactly when no section the pass keeps has the range of
      its nearest kept ancestor. */
  method Parse(src: Source, es: seq<Event>) returns (p: Parser, failed: bool)
    requires Proper(es)
    ensures failed <==> Parsed(src, es).None?
    ensures !failed ==> Stand(p.roots, Parsed(src, es).value, p.Repr) && Under(p.roots, null)
    ensures !failed ==> (Lean(Parsed(src, es).value, None) <==> NoRepeats(Walked(src, es).value, None, None))
  {
    p, failed := ParseAll(src, es);
    if failed { return; }
    ghost var w := WalkAll(src, es).value;
    SoundIsListed(w);
    Finish(p, w);
    ParsedExactly(src, es);
  }
}
