/** markdown/parser.go, the walk of Parse, and markdown/document.go: headings and text blocks arrive in
    document order and grow a tree of sections. The markdown library is an arbitrary sequence of events. */
module MarkdownWalk {
  import opened Wrappers
  import opened SectionLists

  /** The nodes the walk enters. Lines are the byte offsets of the first line's start and the last line's stop. */
  datatype Event =
    | DocumentNode
    | Heading(level: nat, lines: Option<Lines>)
    | Block(lines: Option<Lines>, fenced: bool)
    | TextNode(stop: nat)
    | OtherInline
    | OtherNode

  datatype Lines = Lines(first: nat, last: nat)

  /** The document bytes as far as the walk reads them: their number, the words of a trimmed range, and the
      word budget of a section. */
  datatype Source = Source(size: nat, words: (nat, nat) -> nat, budget: nat)

  datatype Walk = Walk(secs: seq<Sec>, roots: seq<nat>, current: nat, split: bool)

  const BEGIN := Walk([Sec(0, -1, 0, 0, [0], [])], [0], 0, false)

  /** Parents come before their children. */
  predicate Ordered(secs: seq<Sec>) { forall i | 0 <= i < |secs| :: -1 <= secs[i].parent < i }

  function ClosestAncestor(secs: seq<Sec>, from: int, level: nat): (r: int)
    requires Ordered(secs) && -1 <= from < |secs|
    ensures -1 <= r <= from
    ensures r >= 0 ==> secs[r].level < level
    decreases from + 1
  {
    if from < 0 then -1
    else if secs[from].level < level then from
    else ClosestAncestor(secs, secs[from].parent, level)
  }

  /** AppendRange: the section and all its ancestors reach at least end. */
  function Raise(secs: seq<Sec>, i: int, end: nat): (r: seq<Sec>)
    requires Ordered(secs) && -1 <= i < |secs|
    ensures |r| == |secs|
    ensures forall j | 0 <= j < |secs| :: r[j] == secs[j].(end := r[j].end) && r[j].end >= secs[j].end
    decreases i + 1
  {
    if i < 0 then secs
    else
      Raise(secs[i := secs[i].(end := if end > secs[i].end then end else secs[i].end)], secs[i].parent, end)
  }

  /** A new section under parent, or a new root. */
  function Attach(w: Walk, level: nat, parent: int, start: int, end: nat): (r: Walk)
    requires -1 <= parent < |w.secs|
  {
    var id := |w.secs|;
    if parent < 0 then
      w.(secs := w.secs + [Sec(level, -1, start, end, [id], [])], roots := w.roots + [id], current := id)
    else
      var p := w.secs[parent];
      w.(secs := w.secs[parent := p.(kids := p.kids + [id])] + [Sec(level, parent, start, end, p.branch + [id], [])],
         current := id)
  }

  /** The words of a section, None when its range cannot be read. */
  function WordCount(src: Source, s: Sec): Option<nat> {
    var start := if s.start < 0 then 0 else s.start;
    var end := if s.end > src.size then src.size else s.end;
    if start > end then None else Some(src.words(start, end))
  }

  function SplitAfter(src: Source, w: Walk, end: nat): Option<Walk>
    requires Safe(w)
  {
    var s := w.secs[w.current];
    match WordCount(src, s)
    case None => None
    case Some(n) =>
      if n < src.budget then Some(w)
      else if w.split then Some(Attach(w, s.level, s.parent, s.end, end))
      else Some(Attach(w, s.level + 1, w.current, s.end, end).(split := true))
  }

  /** The walk may take another step: a section opened by a split has a parent to share. */
  predicate Safe(w: Walk) {
    Ordered(w.secs) && w.current < |w.secs| && (w.split ==> w.secs[w.current].parent >= 0)
  }

  function EnterHeading(src: Source, w: Walk, level: nat, lines: Option<Lines>): Option<Walk>
    requires Safe(w)
  {
    var v := OpenHeading(w, level);
    if lines.None? then Some(v)
    else CloseHeading(src, v, lines.value.first - (level + 1), lines.value.last)
  }

  function OpenHeading(w: Walk, level: nat): (r: Walk)
    requires Safe(w)
    ensures Safe(r)
  {
    Attach(w.(split := false), level, ClosestAncestor(w.secs, w.current, level), 0, 0)
  }

  /** The heading covers its own lines, and is split after them when they fill it. */
  function CloseHeading(src: Source, v: Walk, start: int, last: nat): Option<Walk>
    requires Safe(v)
  {
    var placed := v.secs[v.current := v.secs[v.current].(start := start)];
    SplitAfter(src, v.(secs := Raise(placed, v.current, last)), last)
  }

  function EnterText(src: Source, w: Walk, end: nat): Option<Walk>
    requires Safe(w)
  {
    if end <= w.secs[w.current].end then Some(w)
    else SplitAfter(src, w.(secs := Raise(w.secs, w.current, end)), end)
  }

  /** Where the node ends, None when the walk passes over it. */
  function TextEnd(e: Event): Option<nat> {
    match e
    case Block(Some(l), fenced) => Some(l.last + if fenced then 4 else 0)
    case TextNode(stop) => Some(stop)
    case OtherInline => Some(0)
    case _ => None
  }

  /** One node of the syntax tree; None when the parse fails. */
  function Enter(src: Source, w: Walk, e: Event): Option<Walk>
    requires Safe(w)
  {
    if e.Heading? then EnterHeading(src, w, e.level, e.lines)
    else match TextEnd(e) case None => Some(w) case Some(end) => EnterText(src, w, end)
  }

  // ---- what the walk keeps ----

  /** The ids one walks through from the root to i. */
  function PathTo(secs: seq<Sec>, i: nat): seq<nat>
    requires Ordered(secs) && i < |secs|
    decreases i
  {
    if secs[i].parent < 0 then [i] else PathTo(secs, secs[i].parent) + [i]
  }

  predicate WellPlaced(secs: seq<Sec>, i: nat)
    requires Ordered(secs) && i < |secs|
  {
    if secs[i].parent < 0 then i == 0 && secs[i].level == 0 && secs[i].branch == [i]
    else
      var p := secs[secs[i].parent];
      p.level < secs[i].level && secs[i].end <= p.end && secs[i].branch == p.branch + [i]
  }

  ghost predicate Sound(w: Walk) {
    && w.secs != [] && Safe(w) && w.roots == [0]
    && (forall i | 0 <= i < |w.secs| :: WellPlaced(w.secs, i))
    && (forall p | 0 <= p < |w.secs| :: w.secs[p].kids == ChildrenOf(w.secs, p))
  }

  lemma {:induction false} SomeAncestor(w: Walk, from: nat, level: nat)
    requires Sound(w) && from < |w.secs| && level > 0
    ensures ClosestAncestor(w.secs, from, level) >= 0
    decreases from
  {
    assert WellPlaced(w.secs, from);
    if w.secs[from].level >= level { SomeAncestor(w, w.secs[from].parent, level); }
  }

  /** Ends stay nested when a section and its ancestors are raised together. */
  lemma {:induction false} RaiseNested(secs: seq<Sec>, i: int, end: nat, slack: nat)
    requires Ordered(secs) && -1 <= i < |secs| && slack <= |secs|
    requires forall j | 0 <= j < |secs| && secs[j].parent >= 0 && (j != slack || secs[j].parent != i) ::
      secs[j].end <= secs[secs[j].parent].end
    requires slack < |secs| && secs[slack].parent == i >= 0 ==>
      secs[slack].end <= end || secs[slack].end <= secs[i].end
    ensures var r := Raise(secs, i, end);
      (forall j | 0 <= j < |r| && r[j].parent >= 0 :: r[j].end <= r[r[j].parent].end)
      && (i >= 0 ==> r[i].end >= end)
    decreases i + 1
  {
    if i >= 0 {
      var raised := secs[i := secs[i].(end := if end > secs[i].end then end else secs[i].end)];
      RaiseNested(raised, secs[i].parent, end, i);
    }
  }

  predicate Nested(secs: seq<Sec>)
    requires Ordered(secs)
  {
    forall j | 0 <= j < |secs| && secs[j].parent >= 0 :: secs[j].end <= secs[secs[j].parent].end
  }

  lemma RaiseKeepsNested(secs: seq<Sec>, i: nat, end: nat)
    requires Ordered(secs) && Nested(secs) && i < |secs|
    ensures var r := Raise(secs, i, end); Nested(r) && r[i].end >= end
  {
    RaiseNested(secs, i, end, |secs|);
  }

  lemma SoundNested(w: Walk)
    requires Sound(w)
    ensures Nested(w.secs)
  {
    forall j | 0 <= j < |w.secs| && w.secs[j].parent >= 0 ensures w.secs[j].end <= w.secs[w.secs[j].parent].end {
      assert WellPlaced(w.secs, j);
    }
  }

  /** Moving the ranges of sections without breaking their nesting keeps the tree sound. */
  lemma RangesSound(w: Walk, r: seq<Sec>)
    requires Sound(w) && |r| == |w.secs|
    requires forall j | 0 <= j < |r| :: r[j] == w.secs[j].(start := r[j].start, end := r[j].end)
    requires Ordered(r) && Nested(r)
    ensures Sound(w.(secs := r))
  {
    forall j | 0 <= j < |r| ensures WellPlaced(r, j) { assert WellPlaced(w.secs, j); }
    forall p | 0 <= p < |r| ensures r[p].kids == ChildrenOf(r, p) {
      assert w.secs[p].kids == ChildrenOf(w.secs, p);
      ChildrenSame(w.secs, r, p);
    }
  }

  lemma RaiseSound(w: Walk, end: nat)
    requires Sound(w)
    ensures var r := Raise(w.secs, w.current, end); Sound(w.(secs := r)) && r[w.current].end >= end
  {
    SoundNested(w);
    RaiseKeepsNested(w.secs, w.current, end);
    RangesSound(w, Raise(w.secs, w.current, end));
  }

  /** Attaching a section whose level exceeds its parent's, and whose end does not, keeps the tree sound. */
  lemma AttachSound(w: Walk, level: nat, parent: nat, start: int, end: nat)
    requires Sound(w) && parent < |w.secs| && w.secs[parent].level < level && end <= w.secs[parent].end
    ensures Sound(Attach(w, level, parent, start, end))
  {
    var v := Attach(w, level, parent, start, end);
    assert forall i | 0 <= i < |w.secs| :: v.secs[i] == w.secs[i].(kids := v.secs[i].kids);
    assert Ordered(v.secs);
    forall i | 0 <= i < |v.secs| ensures WellPlaced(v.secs, i) {
      if i < |w.secs| { assert WellPlaced(w.secs, i); }
    }
    forall p | 0 <= p < |v.secs| ensures v.secs[p].kids == ChildrenOf(v.secs, p) {
      AttachKids(w, level, parent, start, end, p);
    }
  }

  lemma AttachKids(w: Walk, level: nat, parent: nat, start: int, end: nat, p: nat)
    requires Ordered(w.secs) && parent < |w.secs| && p <= |w.secs|
    requires forall q | 0 <= q < |w.secs| :: w.secs[q].kids == ChildrenOf(w.secs, q)
    ensures var v := Attach(w, level, parent, start, end); v.secs[p].kids == ChildrenOf(v.secs, p)
  {
    var v, n := Attach(w, level, parent, start, end), |w.secs|;
    assert v.secs[..n] == w.secs[parent := w.secs[parent].(kids := w.secs[parent].kids + [n])];
    ChildrenSame(w.secs, v.secs[..n], p);
    if p == n { NoChildrenYet(w.secs, n); }
  }

  lemma SplitSound(src: Source, w: Walk, end: nat)
    requires Sound(w) && end <= w.secs[w.current].end
    ensures SplitAfter(src, w, end).Some? ==> Sound(SplitAfter(src, w, end).value)
  {
    hide ChildrenOf, WordCount;
    var s := w.secs[w.current];
    assert WellPlaced(w.secs, w.current);
    if w.split {
      AttachSound(w, s.level, s.parent, s.end, end);
    } else {
      AttachSound(w, s.level + 1, w.current, s.end, end);
    }
  }

  lemma HeadingSound(src: Source, w: Walk, level: nat, lines: Option<Lines>)
    requires Sound(w) && level > 0
    ensures EnterHeading(src, w, level, lines).Some? ==> Sound(EnterHeading(src, w, level, lines).value)
  {
    hide WellPlaced, ChildrenOf, PathTo, WordCount;
    OpenSound(w, level);
    if lines.Some? { CloseSound(src, OpenHeading(w, level), lines.value.first - (level + 1), lines.value.last); }
  }

  lemma OpenSound(w: Walk, level: nat)
    requires Sound(w) && level > 0
    ensures Sound(OpenHeading(w, level))
  {
    hide WellPlaced, ChildrenOf;
    SomeAncestor(w, w.current, level);
    UnsplitSound(w);
    AttachSound(w.(split := false), level, ClosestAncestor(w.secs, w.current, level), 0, 0);
  }

  lemma UnsplitSound(w: Walk)
    requires Sound(w)
    ensures Sound(w.(split := false))
  {
  }

  lemma CloseSound(src: Source, v: Walk, start: int, last: nat)
    requires Sound(v)
    ensures CloseHeading(src, v, start, last).Some? ==> Sound(CloseHeading(src, v, start, last).value)
  {
    hide WellPlaced, ChildrenOf, PathTo, WordCount;
    var placed := v.secs[v.current := v.secs[v.current].(start := start)];
    SoundNested(v);
    RangesSound(v, placed);
    RaiseSound(v.(secs := placed), last);
    SplitSound(src, v.(secs := Raise(placed, v.current, last)), last);
  }

  lemma StepSound(src: Source, w: Walk, e: Event)
    requires Sound(w) && (e.Heading? ==> e.level > 0)
    ensures Enter(src, w, e).Some? ==> Sound(Enter(src, w, e).value)
  {
    if e.Heading? {
      HeadingSound(src, w, e.level, e.lines);
    } else if TextEnd(e).Some? {
      TextSound(src, w, TextEnd(e).value);
    }
  }

  lemma TextSound(src: Source, w: Walk, end: nat)
    requires Sound(w)
    ensures EnterText(src, w, end).Some? ==> Sound(EnterText(src, w, end).value)
  {
    RaiseSound(w, end);
    if end > w.secs[w.current].end { SplitSound(src, w.(secs := Raise(w.secs, w.current, end)), end); }
  }

  /** Heading levels start at 1. */
  predicate Proper(es: seq<Event>) { forall e | e in es :: e.Heading? ==> e.level > 0 }

  /** The whole walk; None when the parse fails. */
  ghost function WalkAll(src: Source, es: seq<Event>): (r: Option<Walk>)
    requires Proper(es)
    ensures r.Some? ==> Sound(r.value)
  {
    if es == [] then BeginSound(); Some(BEGIN)
    else
      match WalkAll(src, es[..|es| - 1])
      case None => None
      case Some(w) => StepSound(src, w, es[|es| - 1]); Enter(src, w, es[|es| - 1])
  }

  lemma BeginSound()
    ensures Sound(BEGIN)
  {
    var s := BEGIN.secs;
    assert s[..0] == [];
    assert ChildrenOf(s, 0) == [];
    assert WellPlaced(s, 0);
  }

  lemma {:induction false} BranchIsPath(secs: seq<Sec>, i: nat)
    requires Ordered(secs) && i < |secs| && forall j | 0 <= j < |secs| :: WellPlaced(secs, j)
    ensures secs[i].branch == PathTo(secs, i)
    ensures secs[i].end <= secs[0].end
    decreases i
  {
    assert WellPlaced(secs, i);
    if secs[i].parent >= 0 { BranchIsPath(secs, secs[i].parent); }
  }

  /** A branch runs through the branch of each section on it. */
  lemma {:induction false} BranchPrefix(w: Walk, j: nat, k: nat)
    requires Sound(w) && j < |w.secs| && k in w.secs[j].branch
    ensures k <= j && w.secs[k].branch <= w.secs[j].branch
    decreases j
  {
    assert WellPlaced(w.secs, j);
    if k != j { BranchPrefix(w, w.secs[j].parent, k); }
  }

  lemma OwnBranch(w: Walk, i: nat)
    requires Sound(w) && i < |w.secs|
    ensures i in w.secs[i].branch
    ensures w.secs[i].parent >= 0 ==> w.secs[i].branch == w.secs[w.secs[i].parent].branch + [i]
  {
    assert WellPlaced(w.secs, i);
  }

  /** Section i hangs in the tree the way its own data says. */
  predicate Hangs(secs: seq<Sec>, i: nat)
    requires Ordered(secs) && i < |secs|
  {
    && secs[i].branch == PathTo(secs, i)
    && secs[i].kids == ChildrenOf(secs, i)
    && (i > 0 ==> secs[i].parent >= 0)
    && (i > 0 ==> secs[secs[i].parent].level < secs[i].level)
    && (i > 0 ==> secs[i].end <= secs[secs[i].parent].end)
  }

  /** After any sequence of nodes: there is one root; a split section has a parent; every other section is
      listed once, in order, by a parent of a lower level that ends no earlier; and its branch is exactly the
      path of ids from the root. */
  lemma WalkBuildsATree(src: Source, es: seq<Event>)
    requires Proper(es) && WalkAll(src, es).Some?
    ensures var w := WalkAll(src, es).value;
      && w.roots == [0] && Ordered(w.secs) && w.current < |w.secs|
      && (w.split ==> w.secs[w.current].parent >= 0)
      && forall i | 0 <= i < |w.secs| :: Hangs(w.secs, i)
  {
    var w := WalkAll(src, es).value;
    forall i | 0 <= i < |w.secs| ensures Hangs(w.secs, i) {
      assert WellPlaced(w.secs, i);
      BranchIsPath(w.secs, i);
    }
  }
}
