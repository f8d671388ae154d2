/** markdown/parser.go, Parse as a whole on plain values: the sections of the walk as a tree, and when pruning that tree
    leaves nothing redundant. */
module MarkdownTree {
  import opened Wrappers
  import opened Order
  import opened SectionLists
  import opened MarkdownWalk
  import P = Prune
  import opened Prune

  /** Children are listed with their parent and come after it. */
  predicate Listed(secs: seq<Sec>) {
    forall p, j | 0 <= p < |secs| && 0 <= j < |secs[p].kids| ::
      p < secs[p].kids[j] < |secs| && secs[secs[p].kids[j]].parent == p
  }

  lemma SoundIsListed(w: Walk)
    requires Sound(w)
    ensures Listed(w.secs)
  {
    forall p, j | 0 <= p < |w.secs| && 0 <= j < |w.secs[p].kids|
      ensures p < w.secs[p].kids[j] < |w.secs| && w.secs[w.secs[p].kids[j]].parent == p
    {
      assert w.secs[p].kids == ChildrenOf(w.secs, p);
      ChildrenAre(w.secs, p);
      assert w.secs[p].kids[j] in w.secs[p].kids;
    }
  }

  /** Section i with everything below it. */
  function TreeOf(secs: seq<Sec>, i: nat): (t: Tree)
    requires Listed(secs) && i < |secs|
    ensures t.head == Head(i, secs[i].level, secs[i].start, secs[i].end) && t.branch == secs[i].branch
    ensures |t.kids| == |secs[i].kids|
    ensures forall j | 0 <= j < |t.kids| :: t.kids[j] == TreeOf(secs, secs[i].kids[j])
    decreases |secs| - i
  {
    Node(Head(i, secs[i].level, secs[i].start, secs[i].end), secs[i].branch,
      seq(|secs[i].kids|, j requires 0 <= j < |secs[i].kids| => TreeOf(secs, secs[i].kids[j])))
  }

  /** The sections of a document as the walk leaves them: None when the parse fails. */
  ghost function Walked(src: Source, es: seq<Event>): Option<seq<Tree>>
    requires Proper(es)
  {
    match WalkAll(src, es)
    case None => None
    case Some(w) => SoundIsListed(w); Some([TreeOf(w.secs, 0)])
  }

  /** The sections left of it after pruning. */
  ghost function Parsed(src: Source, es: seq<Event>): Option<seq<Tree>>
    requires Proper(es)
  {
    match Walked(src, es) case None => None case Some(tree) => Some(P.Prune(tree, None))
  }

  lemma {:induction false} TreeBranches(w: Walk, i: nat)
    requires Sound(w) && Listed(w.secs) && i < |w.secs|
    ensures ExactBranches(TreeOf(w.secs, i).kids, w.secs[i].branch)
    decreases |w.secs| - i
  {
    var t := TreeOf(w.secs, i);
    forall s | s in t.kids ensures s.branch == w.secs[i].branch + [s.head.id] && ExactBranches(s.kids, s.branch) {
      var j :| 0 <= j < |t.kids| && t.kids[j] == s;
      var k := w.secs[i].kids[j];
      assert k in w.secs[i].kids && WellPlaced(w.secs, k);
      TreeBranches(w, k);
    }
  }

  /** What a parse leaves of any document keeps the order of the walk, one root and exact branches. Nothing redundant is
      left, and pruning again changes nothing, exactly when no section that is kept has the range of its nearest kept
      ancestor, which shows before the pass. */
  lemma ParsedExactly(src: Source, es: seq<Event>)
    requires Proper(es) && Walked(src, es).Some?
    ensures var tree, kept := Walked(src, es).value, Parsed(src, es).value;
      && ExactBranches(kept, []) && Subsequence(Preorder(kept), Preorder(tree))
      && |kept| == 1 && kept[0].head == tree[0].head
      && (Lean(kept, None) <==> NoRepeats(tree, None, None))
      && (kept == TopDown(tree, None) <==> NoRepeats(tree, None, None))
      && (P.Prune(kept, None) == kept <==> NoRepeats(tree, None, None))
  {
    var w := WalkAll(src, es).value;
    SoundIsListed(w);
    TreeBranches(w, 0);
    assert WellPlaced(w.secs, 0);
    hide Sound, Listed, TreeOf, Subsequence, TopDown, Lean, Preorder, NoRepeats;
    OneTree(TreeOf(w.secs, 0));
    PruneCorrect([TreeOf(w.secs, 0)]);
  }

  lemma OneTree(t: Tree)
    requires t.branch == [t.head.id] && ExactBranches(t.kids, t.branch)
    ensures ExactBranches([t], [])
  {
    assert [] + [t.head.id] == [t.head.id];
  }

  // ---- documents whose headings move forward ----

  /** How far the text reaches. */
  function Reach(es: seq<Event>): nat {
    if es == [] then 0
    else
      var before, e := Reach(es[..|es| - 1]), es[|es| - 1];
      var end := if e.Heading? then (if e.lines.Some? then e.lines.value.last else 0)
                 else if TextEnd(e).Some? then TextEnd(e).value else 0;
      if end > before then end else before
  }

  /** The heading has lines, and they end beyond everything before it. */
  predicate MovesOn(e: Event, before: nat) {
    e.Heading? ==> e.lines.Some? && e.lines.value.first <= e.lines.value.last && e.lines.value.last > before
  }

  predicate Forward(es: seq<Event>) { forall i | 0 <= i < |es| :: MovesOn(es[i], Reach(es[..i])) }

  /** A section that holds text ends beyond its parent's start. */
  predicate PastStart(secs: seq<Sec>, i: nat)
    requires Ordered(secs) && i < |secs|
  {
    secs[i].parent >= 0 && secs[i].start != secs[i].end ==> secs[i].end > secs[secs[i].parent].start
  }

  /** The walk so far reaches end: so does its current section, and no section starts beyond. */
  predicate Fits(w: Walk, end: nat) {
    && Safe(w) && w.secs[0].end == w.secs[w.current].end == end
    && (forall i | 0 <= i < |w.secs| :: w.secs[i].start <= end)
    && forall i | 0 <= i < |w.secs| :: PastStart(w.secs, i)
  }

  /** Raising is to the given end or not at all. */
  lemma {:induction false} RaisedTo(secs: seq<Sec>, i: int, end: nat)
    requires Ordered(secs) && -1 <= i < |secs|
    ensures var r := Raise(secs, i, end);
      (forall j | 0 <= j < |secs| :: r[j].end == secs[j].end || r[j].end == end)
      && (i >= 0 ==> r[i].end == (if end > secs[i].end then end else secs[i].end))
    decreases i + 1
  {
    if i >= 0 {
      RaisedTo(secs[i := secs[i].(end := if end > secs[i].end then end else secs[i].end)], secs[i].parent, end);
    }
  }

  lemma RootOutlasts(w: Walk)
    requires Sound(w)
    ensures forall i | 0 <= i < |w.secs| :: w.secs[i].end <= w.secs[0].end
  {
    forall i | 0 <= i < |w.secs| ensures w.secs[i].end <= w.secs[0].end {
      assert forall j | 0 <= j < |w.secs| :: WellPlaced(w.secs, j);
      BranchIsPath(w.secs, i);
    }
  }

  /** The current section, which may start beyond what the others reach, is raised beyond everything. */
  lemma RaiseFits(w: Walk, end: nat, before: nat)
    requires Safe(w) && Sound(w.(secs := Raise(w.secs, w.current, end))) && end > before
    requires forall i | 0 <= i < |w.secs| :: w.secs[i].end <= before
    requires forall i | 0 <= i < |w.secs| :: w.secs[i].start <= if i == w.current then end else before
    requires w.secs[w.current].start <= before || w.current == |w.secs| - 1
    requires forall i | 0 <= i < |w.secs| && i != w.current :: PastStart(w.secs, i)
    ensures Fits(w.(secs := Raise(w.secs, w.current, end)), end)
  {
    hide Sound;
    var v := w.(secs := Raise(w.secs, w.current, end));
    RaisedTo(w.secs, w.current, end);
    RootOutlasts(v);
    forall i | 0 <= i < |v.secs| ensures PastStart(v.secs, i) {
      assert i != w.current ==> PastStart(w.secs, i);
    }
  }

  lemma SplitFits(src: Source, w: Walk, end: nat)
    requires Fits(w, end)
    ensures SplitAfter(src, w, end).Some? ==> Fits(SplitAfter(src, w, end).value, end)
  {
    hide WordCount;
    if SplitAfter(src, w, end).Some? {
      var v := SplitAfter(src, w, end).value;
      forall i | 0 <= i < |v.secs| ensures PastStart(v.secs, i) {
        if i < |w.secs| { assert PastStart(w.secs, i); }
      }
    }
  }

  lemma TextFits(src: Source, w: Walk, end: nat, before: nat)
    requires Sound(w) && Fits(w, before)
    ensures EnterText(src, w, end).Some? ==> Fits(EnterText(src, w, end).value, if end > before then end else before)
  {
    if end > before {
      RaiseSound(w, end);
      RootOutlasts(w);
      hide Sound, SplitAfter;
      RaiseFits(w, end, before);
      SplitFits(src, w.(secs := Raise(w.secs, w.current, end)), end);
    }
  }

  lemma HeadingFits(src: Source, w: Walk, level: nat, lines: Lines, before: nat)
    requires Sound(w) && Fits(w, before) && level > 0 && lines.first <= lines.last && lines.last > before
    ensures EnterHeading(src, w, level, Some(lines)).Some? ==>
      Fits(EnterHeading(src, w, level, Some(lines)).value, lines.last)
  {
    hide Sound, OpenHeading, CloseHeading, PastStart;
    var v, start := OpenHeading(w, level), lines.first - (level + 1);
    OpenSound(w, level);
    OpenFits(w, level, before);
    hide Fits;
    CloseFits(src, v, start, lines.last, before);
  }

  lemma CloseFits(src: Source, v: Walk, start: int, last: nat, before: nat)
    requires Sound(v) && v.current == |v.secs| - 1 && start <= last && last > before
    requires forall i | 0 <= i < |v.secs| :: v.secs[i].start <= before && v.secs[i].end <= before
    requires forall i | 0 <= i < |v.secs| :: PastStart(v.secs, i)
    ensures CloseHeading(src, v, start, last).Some? ==> Fits(CloseHeading(src, v, start, last).value, last)
  {
    PlaceSound(v, start, last);
    hide Sound, SplitAfter;
    var placed := v.(secs := v.secs[v.current := v.secs[v.current].(start := start)]);
    forall i | 0 <= i < |v.secs| && i != v.current ensures PastStart(placed.secs, i) {
      assert PastStart(v.secs, i);
    }
    RaiseFits(placed, last, before);
    SplitFits(src, v.(secs := Raise(placed.secs, v.current, last)), last);
  }

  lemma PlaceSound(v: Walk, start: int, last: nat)
    requires Sound(v)
    ensures var placed := v.(secs := v.secs[v.current := v.secs[v.current].(start := start)]);
      Sound(placed.(secs := Raise(placed.secs, v.current, last)))
  {
    hide WellPlaced, ChildrenOf;
    var placed := v.(secs := v.secs[v.current := v.secs[v.current].(start := start)]);
    SoundNested(v);
    RangesSound(v, placed.secs);
    RaiseSound(placed, last);
  }

  /** A heading opens empty, at the start of the document. */
  lemma OpenFits(w: Walk, level: nat, before: nat)
    requires Sound(w) && Fits(w, before) && level > 0
    ensures var v := OpenHeading(w, level);
      && v.current == |v.secs| - 1
      && (forall i | 0 <= i < |v.secs| :: v.secs[i].start <= before && v.secs[i].end <= before)
      && forall i | 0 <= i < |v.secs| :: PastStart(v.secs, i)
  {
    RootOutlasts(w);
    hide Sound;
    var v := OpenHeading(w, level);
    forall i | 0 <= i < |v.secs| ensures PastStart(v.secs, i) {
      if i < |w.secs| { assert PastStart(w.secs, i); }
    }
  }

  lemma {:induction false} ForwardFits(src: Source, es: seq<Event>)
    requires Proper(es) && Forward(es) && WalkAll(src, es).Some?
    ensures Fits(WalkAll(src, es).value, Reach(es))
  {
    if es != [] {
      var init, e := es[..|es| - 1], es[|es| - 1];
      ForwardPrefix(es);
      ForwardFits(src, init);
      var w := WalkAll(src, init).value;
      hide EnterHeading, EnterText, Fits, Sound;
      assert MovesOn(es[|es| - 1], Reach(init));
      if e.Heading? {
        HeadingFits(src, w, e.level, e.lines.value, Reach(init));
      } else if TextEnd(e).Some? {
        TextFits(src, w, TextEnd(e).value, Reach(init));
      }
    }
  }

  lemma ForwardPrefix(es: seq<Event>)
    requires Forward(es) && es != []
    ensures Forward(es[..|es| - 1])
  {
    var init := es[..|es| - 1];
    forall i | 0 <= i < |init| ensures MovesOn(init[i], Reach(init[..i])) {
      assert init[..i] == es[..i] && MovesOn(es[i], Reach(es[..i]));
    }
  }

  // ---- their trees are hollow, and pruning leaves nothing redundant ----

  lemma KidFits(w: Walk, i: nat, k: nat)
    requires Sound(w) && i < |w.secs| && k in w.secs[i].kids && Listed(w.secs)
    requires forall j | 0 <= j < |w.secs| :: PastStart(w.secs, j)
    ensures w.secs[i].start == w.secs[i].end ==> w.secs[k].start == w.secs[k].end
  {
    assert WellPlaced(w.secs, k) && PastStart(w.secs, k);
  }

  lemma {:induction false} EmptyTree(w: Walk, i: nat)
    requires Sound(w) && Listed(w.secs) && i < |w.secs| && w.secs[i].start == w.secs[i].end
    requires forall j | 0 <= j < |w.secs| :: PastStart(w.secs, j)
    ensures AllEmpty(TreeOf(w.secs, i).kids)
    decreases |w.secs| - i
  {
    var t := TreeOf(w.secs, i);
    forall s | s in t.kids ensures s.head.start == s.head.end && AllEmpty(s.kids) {
      var j :| 0 <= j < |t.kids| && t.kids[j] == s;
      var k := w.secs[i].kids[j];
      assert k in w.secs[i].kids;
      KidFits(w, i, k);
      EmptyTree(w, k);
    }
  }

  lemma {:induction false} HollowTree(w: Walk, i: nat)
    requires Sound(w) && Listed(w.secs) && i < |w.secs|
    requires forall j | 0 <= j < |w.secs| :: PastStart(w.secs, j)
    ensures Hollow(TreeOf(w.secs, i).kids)
    decreases |w.secs| - i
  {
    var t := TreeOf(w.secs, i);
    forall s | s in t.kids ensures (s.head.start == s.head.end ==> AllEmpty(s.kids)) && Hollow(s.kids) {
      var j :| 0 <= j < |t.kids| && t.kids[j] == s;
      var k := w.secs[i].kids[j];
      assert k in w.secs[i].kids;
      HollowTree(w, k);
      if w.secs[k].start == w.secs[k].end { EmptyTree(w, k); }
    }
  }

  /** A condition on the document alone: its headings all have lines that end beyond the text before them. Then nothing
      below an empty section holds text, and what the parser leaves is its sections in order, without those that are
      empty or repeat their nearest surviving ancestor. */
  lemma ForwardDocumentIsLean(src: Source, es: seq<Event>)
    requires Proper(es) && Forward(es) && Walked(src, es).Some?
    ensures var tree, kept := Walked(src, es).value, Parsed(src, es).value;
      && Hollow(tree) && NoRepeats(tree, None, None)
      && kept == TopDown(tree, None) && Lean(kept, None) && P.Prune(kept, None) == kept
  {
    hide WalkAll, Forward, Subsequence, TopDown, Lean, Preorder, ExactBranches, NoRepeats, Hollow;
    ForwardIsHollow(src, es);
    HollowRepeatsNothing(Walked(src, es).value, None, None);
    ParsedExactly(src, es);
  }

  lemma ForwardIsHollow(src: Source, es: seq<Event>)
    requires Proper(es) && Forward(es) && Walked(src, es).Some?
    ensures Hollow(Walked(src, es).value)
  {
    hide WalkAll, Forward, AllEmpty;
    var w := WalkAll(src, es).value;
    SoundIsListed(w);
    ForwardFits(src, es);
    HollowTree(w, 0);
    if w.secs[0].start == w.secs[0].end { EmptyTree(w, 0); }
  }

  // ---- the condition is needed ----

  /** A quoted code block, whose end is taken four bytes too far, then a heading without a text, then a paragraph:
      "> ```", "> code", "##", "a". */
  function QuotedCode(): seq<Event> {
    [Block(Some(Lines(8, 13)), true), Heading(2, None), Block(Some(Lines(16, 17)), false)]
  }

  /** The walk leaves root 0-17, in it 17-17, in it 0-17, in it 17-17; pruning drops the two empty sections and leaves
      0-17 under 0-17. */
  lemma RepeatStays(words: (nat, nat) -> nat)
    requires words(0, 17) >= 5
    ensures var src := Source(17, words, 5);
      && Proper(QuotedCode()) && !Forward(QuotedCode())
      && Parsed(src, QuotedCode()) ==
           Some([Node(Head(0, 0, 0, 17), [0], [Node(Head(2, 2, 0, 17), [0, 2], [])])])
      && !Lean(Parsed(src, QuotedCode()).value, None)
      && P.Prune(Parsed(src, QuotedCode()).value, None) != Parsed(src, QuotedCode()).value
  {
    var src, es := Source(17, words, 5), QuotedCode();
    QuotedWalk(src);
    var w := QuotedSections();
    SoundIsListed(w);
    QuotedTree(w);
    QuotedPrune();
    assert !MovesOn(es[1], Reach(es[..1]));
    var kept := [Node(Head(0, 0, 0, 17), [0], [Node(Head(2, 2, 0, 17), [0, 2], [])])];
    assert kept[0] in kept && kept[0].kids[0] in kept[0].kids;
    assert Redundant(kept[0].kids[0].head, Some(kept[0]));
  }

  function QuotedSections(): Walk {
    Walk([Sec(0, -1, 0, 17, [0], [1]), Sec(1, 0, 17, 17, [0, 1], [2]),
          Sec(2, 1, 0, 17, [0, 1, 2], [3]), Sec(3, 2, 17, 17, [0, 1, 2, 3], [])],
         [0], 3, true)
  }

  function AfterCode(): Walk {
    Walk([Sec(0, -1, 0, 17, [0], [1]), Sec(1, 0, 17, 17, [0, 1], [])], [0], 1, true)
  }

  function AfterHeading(): Walk {
    Walk([Sec(0, -1, 0, 17, [0], [1]), Sec(1, 0, 17, 17, [0, 1], [2]), Sec(2, 1, 0, 0, [0, 1, 2], [])], [0], 2, false)
  }

  lemma QuotedWalk(src: Source)
    requires src.size == 17 && src.budget == 5 && src.words(0, 17) >= 5
    ensures Proper(QuotedCode()) && WalkAll(src, QuotedCode()) == Some(QuotedSections())
  {
    var es := QuotedCode();
    assert es[..3] == es && es[..3][..2] == es[..2] && es[..2][..1] == es[..1] && es[..1][..0] == [];
    QuotedStart(src);
    QuotedHeading(src);
    QuotedEnd(src);
    hide Enter;
    assert WalkAll(src, es[..1]) == Some(AfterCode());
    assert WalkAll(src, es[..2]) == Some(AfterHeading());
  }

  lemma QuotedStart(src: Source)
    requires src.size == 17 && src.budget == 5 && src.words(0, 17) >= 5
    ensures Enter(src, BEGIN, QuotedCode()[0]) == Some(AfterCode())
  {
    var raised := Raise(BEGIN.secs, 0, 17);
    assert raised == [Sec(0, -1, 0, 17, [0], [])];
    assert WordCount(src, raised[0]) == Some(src.words(0, 17));
    assert [0] + [1] == [0, 1] && [] + [1] == [1];
    assert Attach(BEGIN.(secs := raised), 1, 0, 17, 17).secs == AfterCode().secs;
  }

  lemma QuotedHeading(src: Source)
    ensures Safe(AfterCode()) && Enter(src, AfterCode(), QuotedCode()[1]) == Some(AfterHeading())
  {
    var a := AfterCode();
    assert ClosestAncestor(a.secs, 1, 2) == 1;
    assert [0, 1] + [2] == [0, 1, 2] && [] + [2] == [2];
    assert Attach(a.(split := false), 2, 1, 0, 0).secs == AfterHeading().secs;
  }

  lemma QuotedEnd(src: Source)
    requires src.size == 17 && src.budget == 5 && src.words(0, 17) >= 5
    ensures Safe(AfterHeading()) && Enter(src, AfterHeading(), QuotedCode()[2]) == Some(QuotedSections())
  {
    var b := AfterHeading();
    var c := b.secs[2 := b.secs[2].(end := 17)];
    assert Raise(c, 0, 17) == c[0 := c[0].(end := 17)] == c;
    assert Raise(c, 1, 17) == Raise(c[1 := c[1].(end := 17)], 0, 17) == c;
    assert Raise(b.secs, 2, 17) == Raise(c, 1, 17) == c;
    assert WordCount(src, c[2]) == Some(src.words(0, 17));
    assert [0, 1, 2] + [3] == [0, 1, 2, 3] && [] + [3] == [3];
    assert Attach(b.(secs := c), 3, 2, 17, 17).secs == QuotedSections().secs;
  }

  function Leaf(): Tree { Node(Head(3, 3, 17, 17), [0, 1, 2, 3], []) }
  function Repeat(): Tree { Node(Head(2, 2, 0, 17), [0, 1, 2], [Leaf()]) }
  function Gap(): Tree { Node(Head(1, 1, 17, 17), [0, 1], [Repeat()]) }
  function Whole(): Tree { Node(Head(0, 0, 0, 17), [0], [Gap()]) }

  lemma QuotedTree(w: Walk)
    requires w == QuotedSections() && Listed(w.secs)
    ensures TreeOf(w.secs, 0) == Whole()
  {
    assert TreeOf(w.secs, 3).kids == [];
    assert TreeOf(w.secs, 3) == Leaf();
    assert TreeOf(w.secs, 2).kids == [Leaf()];
    assert TreeOf(w.secs, 1).kids == [Repeat()];
    assert TreeOf(w.secs, 0).kids == [Gap()];
  }

  lemma QuotedPrune()
    ensures P.Prune([Whole()], None) == [Node(Head(0, 0, 0, 17), [0], [Node(Head(2, 2, 0, 17), [0, 2], [])])]
    ensures var kept := P.Prune([Whole()], None); P.Prune(kept, None) != kept
  {
    var bare, lifted := Repeat().(kids := []), Node(Head(2, 2, 0, 17), [0, 2], []);
    var once := Whole().(kids := [lifted]);
    PruneSingle(Leaf(), Some(Repeat()));
    PruneSingle(Repeat(), Some(Gap()));
    assert P.Prune([Repeat()], Some(Gap())) == [bare];
    PruneSingle(Gap(), Some(Whole()));
    assert Rebranch(bare, [0]) == lifted;
    assert RebranchAll([bare], [0]) == [lifted];
    PruneSingle(Whole(), None);
    PruneSingle(lifted, Some(once));
    PruneSingle(once, None);
  }
}
