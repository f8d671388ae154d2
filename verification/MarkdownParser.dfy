/** markdown/parser.go and markdown/document.go in their own form: sections are objects linked by pointers,
    and the parser moves its current section and its split flag as nodes come in. Each method is proved
    against the walk over plain values. */
module MarkdownParser {
  import opened Wrappers
  import opened SectionLists
  import W = MarkdownWalk
  import opened MarkdownWalk

  /** Repr is for the pass after the walk: the section and everything below it. */
  class Section {
    const id: nat
    var level: nat
    var parent: Section?
    var sections: seq<Section>
    var start: int
    var end: nat
    var branch: seq<nat>
    ghost var Repr: set<Section>

    constructor (id: nat, level: nat, parent: Section?, start: int, end: nat, branch: seq<nat>)
      ensures this.id == id && this.level == level && this.parent == parent && sections == []
      ensures this.start == start && this.end == end && this.branch == branch
    {
      this.id, this.level, this.parent, this.sections := id, level, parent, [];
      this.start, this.end, this.branch := start, end, branch;
    }

    /** This object is the i-th section, as s describes it. */
    ghost predicate Shows(all: seq<Section>, i: nat, s: Sec)
      reads this
    {
      && id == i && level == s.level && start == s.start && end == s.end && branch == s.branch
      && (if s.parent < 0 then parent == null else s.parent < |all| && parent == all[s.parent])
      && Lists(sections, all, s.kids)
    }

    method AppendRange(end: nat, ghost all: seq<Section>, ghost secs: seq<Sec>)
      requires Ordered(secs) && Mirrors(all, secs) && id < |all| && all[id] == this
      modifies all
      ensures Mirrors(all, Raise(secs, id, end))
      decreases id
    {
      if end > this.end { this.end := end; }
      ghost var raised := secs[id := secs[id].(end := this.end)];
      assert Mirrors(all, raised);
      if parent != null {
        parent.AppendRange(end, all, raised);
      }
    }

    method FindClosestAncestor(level: nat, ghost all: seq<Section>, ghost secs: seq<Sec>) returns (r: Section?)
      requires Ordered(secs) && Mirrors(all, secs) && id < |all| && all[id] == this
      ensures var i := ClosestAncestor(secs, id, level); if i < 0 then r == null else r == all[i]
      decreases id
    {
      if this.level < level { return this; }
      if parent == null { return null; }
      r := parent.FindClosestAncestor(level, all, secs);
    }
  }

  /** The sections once the next one is listed by its parent p. */
  function Linked(w: Walk, p: nat): (r: seq<Sec>)
    requires p < |w.secs|
    ensures |r| == |w.secs|
  {
    w.secs[p := w.secs[p].(kids := w.secs[p].kids + [|w.secs|])]
  }

  /** The objects of a list are the sections numbered ids. */
  predicate Lists(objects: seq<Section>, all: seq<Section>, ids: seq<nat>) {
    |objects| == |ids| && forall j | 0 <= j < |ids| :: ids[j] < |all| && objects[j] == all[ids[j]]
  }

  ghost predicate Mirrors(all: seq<Section>, secs: seq<Sec>)
    reads all
  {
    |all| == |secs| && forall i | 0 <= i < |all| :: all[i].Shows(all, i, secs[i])
  }

  class Parser {
    const src: Source
    ghost var all: seq<Section>
    ghost var Repr: set<Section>
    var roots: seq<Section>
    var current: Section
    var split: bool
    var next: nat

    constructor (src: Source)
      ensures this.src == src && Is(BEGIN) && fresh(Repr)
    {
      this.src := src;
      var root := new Section(0, 0, null, 0, 0, [0]);
      all, Repr, roots, current, split, next := [root], {root}, [root], root, false, 1;
    }

    /** The state of the parser is the walk w. */
    ghost predicate Is(w: Walk)
      reads this, Repr
    {
      && (forall o | o in all :: o in Repr)
      && Mirrors(all, w.secs) && next == |all|
      && w.current < |all| && current == all[w.current] && split == w.split
      && Lists(roots, all, w.roots)
    }

    /** Links s, the newest section, under parent. */
    method Link(s: Section, parent: Section, ghost w: Walk, ghost p: nat)
      requires Mirrors(all, w.secs) && p < |w.secs| && parent == all[p] && (forall o | o in all :: o in Repr)
      requires s !in all && s.id == |all|
      modifies parent`sections, s`branch
      ensures s.branch == w.secs[p].branch + [s.id]
      ensures forall i | 0 <= i < |all| :: all[i].Shows(all + [s], i, Linked(w, p)[i])
    {
      parent.sections := parent.sections + [s];
      s.branch := parent.branch + [s.id];
      forall i | 0 <= i < |all| ensures all[i].Shows(all + [s], i, Linked(w, p)[i]) {
        assert old(all[i].Shows(all, i, w.secs[i]));
        assert i != p ==> all[i] != parent;
      }
    }

    /** A new section under parent, or a new root; it becomes the current one. */
    method Attach(level: nat, parent: Section?, start: int, end: nat, ghost w: Walk, ghost p: int)
      requires Is(w) && -1 <= p < |w.secs| && (if p < 0 then parent == null else parent == all[p])
      modifies this, Repr
      ensures Is(W.Attach(w, level, p, start, end))
      ensures fresh(Repr - old(Repr)) && split == old(split)
    {
      var s := new Section(next, level, parent, start, end, []);
      if parent != null {
        Link(s, parent, w, p);
        Record(s, W.Attach(w, level, p, start, end), Linked(w, p));
      } else {
        roots := roots + [s];
        s.branch := [s.id];
        forall i | 0 <= i < |all| ensures all[i].Shows(all + [s], i, w.secs[i]) {
          assert old(all[i].Shows(all, i, w.secs[i]));
        }
        Record(s, W.Attach(w, level, p, start, end), w.secs);
      }
    }

    /** The new section is the current one; v describes the parser with it. */
    method Record(s: Section, ghost v: Walk, ghost secs: seq<Sec>)
      requires (forall o | o in all :: o in Repr) && s.id == next == |all| == |secs|
      requires forall i | 0 <= i < |all| :: all[i].Shows(all + [s], i, secs[i])
      requires |v.secs| == |all| + 1 && v.secs[..|all|] == secs && s.Shows(all + [s], |all|, v.secs[|all|])
      requires v.current == |all| && v.split == split && Lists(roots, all + [s], v.roots)
      modifies this`all, this`Repr, this`current, this`next
      ensures Is(v) && Repr == old(Repr) + {s}
    {
      forall i | 0 <= i < |all| ensures v.secs[i] == secs[i] { assert v.secs[..|all|][i] == secs[i]; }
      all, Repr := all + [s], Repr + {s};
      current, next := s, next + 1;
    }

    /** splitAfter; failed reports a range that cannot be read. */
    method SplitAfter(end: nat, ghost w: Walk) returns (failed: bool)
      requires Is(w) && Safe(w)
      modifies this, Repr
      ensures failed <==> W.SplitAfter(src, w, end).None?
      ensures !failed ==> Is(W.SplitAfter(src, w, end).value)
      ensures fresh(Repr - old(Repr))
    {
      var s := current;
      assert s.Shows(all, w.current, w.secs[w.current]);
      hide Mirrors, W.Attach;
      var start := if s.start < 0 then 0 else s.start;
      var stop := if s.end > src.size then src.size else s.end;
      if start > stop { return true; }
      if src.words(start, stop) < src.budget { return false; }
      if split {
        Attach(s.level, s.parent, s.end, end, w, w.secs[w.current].parent);
      } else {
        Attach(s.level + 1, s, s.end, end, w, w.current);
      }
      split := true;
      failed := false;
    }

    method OpenHeading(level: nat, ghost w: Walk)
      requires Is(w) && Safe(w)
      modifies this, Repr
      ensures Is(W.OpenHeading(w, level))
      ensures fresh(Repr - old(Repr))
    {
      split := false;
      ghost var u := w.(split := false);
      var parent := current.FindClosestAncestor(level, all, w.secs);
      Attach(level, parent, 0, 0, u, ClosestAncestor(w.secs, w.current, level));
    }

    method CloseHeading(start: int, last: nat, ghost v: Walk) returns (failed: bool)
      requires Is(v) && Safe(v)
      modifies this, Repr
      ensures failed <==> W.CloseHeading(src, v, start, last).None?
      ensures !failed ==> Is(W.CloseHeading(src, v, start, last).value)
      ensures fresh(Repr - old(Repr))
    {
      current.start := start;
      ghost var placed := v.secs[v.current := v.secs[v.current].(start := start)];
      assert Mirrors(all, placed);
      current.AppendRange(last, all, placed);
      failed := SplitAfter(last, v.(secs := Raise(placed, v.current, last)));
    }

    method EnterHeading(level: nat, lines: Option<Lines>, ghost w: Walk) returns (failed: bool)
      requires Is(w) && Safe(w)
      modifies this, Repr
      ensures failed <==> W.EnterHeading(src, w, level, lines).None?
      ensures !failed ==> Is(W.EnterHeading(src, w, level, lines).value)
      ensures fresh(Repr - old(Repr))
    {
      OpenHeading(level, w);
      if lines.None? { return false; }
      failed := CloseHeading(lines.value.first - (level + 1), lines.value.last, W.OpenHeading(w, level));
    }

    method EnterText(end: nat, ghost w: Walk) returns (failed: bool)
      requires Is(w) && Safe(w)
      modifies this, Repr
      ensures failed <==> W.EnterText(src, w, end).None?
      ensures !failed ==> Is(W.EnterText(src, w, end).value)
      ensures fresh(Repr - old(Repr))
    {
      if end <= current.end { return false; }
      current.AppendRange(end, all, w.secs);
      failed := SplitAfter(end, w.(secs := Raise(w.secs, w.current, end)));
    }

    /** One node of the syntax tree. */
    method Enter(e: Event, ghost w: Walk) returns (failed: bool)
      requires Is(w) && Safe(w)
      modifies this, Repr
      ensures failed <==> W.Enter(src, w, e).None?
      ensures !failed ==> Is(W.Enter(src, w, e).value)
      ensures fresh(Repr - old(Repr))
    {
      var end := 0;
      match e {
        case Heading(level, lines) =>
          failed := EnterHeading(level, lines, w);
          return;
        case Block(lines, fenced) =>
          if lines.None? { return false; }
          end := lines.value.last;
          if fenced { end := end + 4; }
        case TextNode(stop) => end := stop;
        case OtherInline =>
        case DocumentNode => return false;
        case OtherNode => return false;
      }
      failed := EnterText(end, w);
    }
  }

  /** Walks a whole document; the parser it returns holds the tree the walk describes. */
  method ParseAll(src: Source, es: seq<Event>) returns (p: Parser, failed: bool)
    requires Proper(es)
    ensures failed <==> WalkAll(src, es).None?
    ensures !failed ==> p.Is(WalkAll(src, es).value)
    ensures fresh(p) && fresh(p.Repr)
  {
    p := new Parser(src);
    failed := false;
    assert es[..0] == [];
    for i := 0 to |es|
      invariant !failed && fresh(p) && fresh(p.Repr) && p.src == src
      invariant WalkAll(src, es[..i]).Some? && p.Is(WalkAll(src, es[..i]).value)
    {
      WalkOneMore(src, es, i);
      failed := p.Enter(es[i], WalkAll(src, es[..i]).value);
      if failed {
        FailureStays(src, es, i + 1);
        return;
      }
    }
    assert es[..|es|] == es;
  }

  lemma WalkOneMore(src: Source, es: seq<Event>, i: nat)
    requires Proper(es) && i < |es| && WalkAll(src, es[..i]).Some?
    ensures WalkAll(src, es[..i + 1]) == W.Enter(src, WalkAll(src, es[..i]).value, es[i])
  {
    assert es[..i + 1][..i] == es[..i] && es[..i + 1][i] == es[i];
  }

  lemma {:induction false} FailureStays(src: Source, es: seq<Event>, i: nat)
    requires Proper(es) && i <= |es| && WalkAll(src, es[..i]).None?
    ensures WalkAll(src, es).None?
    decreases |es| - i
  {
    if i == |es| {
      assert es[..i] == es;
    } else {
      assert es[..i + 1][..i] == es[..i];
      FailureStays(src, es, i + 1);
    }
  }
}
