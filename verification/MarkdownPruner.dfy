/** markdown/parser.go, pruneRedundant and rebranch on sections linked by pointers: the children of a dropped
    section are re-parented in place. Each method is proved against its value in Prune. */
module MarkdownPruner {
  import opened Wrappers
  import P = Prune
  import opened Prune
  import opened MarkdownParser

  function HeadOf(s: Section): Head
    reads s
  {
    Head(s.id, s.level, s.start, s.end)
  }

  /** The object s heads the tree t; its Repr holds the subtree. */
  ghost predicate Is(s: Section, t: Tree)
    reads s, s.Repr
    decreases t, 0
  {
    && s in s.Repr && HeadOf(s) == t.head && s.branch == t.branch
    && Owns(s) && Shows(s, t.kids)
  }

  /** The subtrees of the children are apart, below the section and nowhere else. */
  ghost predicate Owns(s: Section)
    reads s, s.Repr
  {
    && (forall i | 0 <= i < |s.sections| ::
      s.sections[i] in s.Repr && s.sections[i].Repr <= s.Repr && s !in s.sections[i].Repr && s.sections[i].parent == s)
    && forall i, j | 0 <= i < j < |s.sections| :: s.sections[i].Repr !! s.sections[j].Repr
  }

  ghost predicate Shows(s: Section, kids: seq<Tree>)
    requires Owns(s)
    reads s, s.Repr
    decreases kids, 1
  {
    |s.sections| == |kids| && forall i | 0 <= i < |s.sections| :: Is(s.sections[i], kids[i])
  }

  method Rebranch(s: Section, above: seq<nat>, ghost t: Tree)
    requires Is(s, t)
    modifies s.Repr`branch
    ensures Is(s, P.Rebranch(t, above))
    decreases t, 0
  {
    s.branch := above + [s.id];
    ghost var now := t.kids;
    for i := 0 to |s.sections|
      invariant s.branch == above + [s.id] && |now| == |t.kids|
      invariant Owns(s) && Shows(s, now)
      invariant forall j | 0 <= j < i :: now[j] == P.Rebranch(t.kids[j], s.branch)
      invariant now[i..] == t.kids[i..]
    {
      assert now[i] == t.kids[i];
      RebranchChild(s, i, s.branch, now);
      now := now[i := P.Rebranch(now[i], s.branch)];
    }
    assert now == RebranchAll(t.kids, s.branch);
  }

  method RebranchChild(s: Section, i: nat, above: seq<nat>, ghost now: seq<Tree>)
    requires Owns(s) && Shows(s, now) && i < |s.sections|
    modifies s.sections[i].Repr`branch
    ensures Owns(s) && Shows(s, now[i := P.Rebranch(now[i], above)])
    decreases now[i], 1
  {
    Rebranch(s.sections[i], above, now[i]);
    forall j | 0 <= j < |s.sections| && j != i ensures Is(s.sections[j], now[j]) {
      assert old(Is(s.sections[j], now[j]));
      assert s.sections[j].Repr !! s.sections[i].Repr;
    }
  }

  method Adopt(s: Section, above: Section?, ghost t: Tree)
    requires Is(s, t)
    modifies s`parent
    ensures Is(s, t) && s.parent == above
  {
    s.parent := above;
    forall i | 0 <= i < |s.sections| ensures Is(s.sections[i], t.kids[i]) && s.sections[i].parent == s {
      assert old(Is(s.sections[i], t.kids[i]));
    }
  }

  /** A dropped section's child moves under above. */
  method Lift(s: Section, above: Section, ghost t: Tree)
    requires Is(s, t) && above !in s.Repr
    modifies s`parent, s.Repr`branch
    ensures Is(s, P.Rebranch(t, above.branch)) && s.parent == above
  {
    Adopt(s, above, t);
    Rebranch(s, above.branch, t);
  }

  /** The objects head the trees, apart from one another and within region. */
  ghost predicate Stand(ss: seq<Section>, ts: seq<Tree>, region: set<Section>)
    reads ss, region
  {
    && |ss| == |ts|
    && (forall i | 0 <= i < |ss| :: ss[i].Repr <= region && Is(ss[i], ts[i]))
    && forall i, j | 0 <= i < j < |ss| :: ss[i].Repr !! ss[j].Repr
  }

  ghost predicate Under(ss: seq<Section>, parent: Section?)
    reads ss
  {
    forall s | s in ss :: s.parent == parent
  }

  /** pt describes the parent, apart from its children. */
  ghost predicate Heads(parent: Section?, pt: Option<Tree>)
    reads parent
  {
    if parent == null then pt.None? else pt.Some? && HeadOf(parent) == pt.value.head && parent.branch == pt.value.branch
  }

  method LiftOne(ss: seq<Section>, i: nat, parent: Section, ghost now: seq<Tree>, ghost region: set<Section>)
    requires Stand(ss, now, region) && i < |ss| && parent !in region
    modifies {ss[i]}`parent, ss[i].Repr`branch
    ensures Stand(ss, now[i := P.Rebranch(now[i], parent.branch)], region)
    ensures ss[i].parent == parent
  {
    Lift(ss[i], parent, now[i]);
    forall j | 0 <= j < |ss| && j != i ensures Is(ss[j], now[j]) {
      assert old(Is(ss[j], now[j]));
      assert ss[j].Repr !! ss[i].Repr;
      assert ss[i] in ss[i].Repr;
    }
  }

  /** The children of a dropped section move under its parent. */
  method LiftAll(ss: seq<Section>, parent: Section, ghost ts: seq<Tree>, ghost region: set<Section>)
    requires Stand(ss, ts, region) && parent !in region
    modifies region`parent, region`branch
    ensures Stand(ss, RebranchAll(ts, parent.branch), region) && Under(ss, parent)
  {
    ghost var now := ts;
    for i := 0 to |ss|
      invariant |now| == |ts| && Stand(ss, now, region)
      invariant parent.branch == old(parent.branch)
      invariant forall j | 0 <= j < i :: now[j] == P.Rebranch(ts[j], parent.branch)
      invariant Under(ss[..i], parent)
      invariant now[i..] == ts[i..]
    {
      assert now[i] == ts[i];
      LiftNext(ss, i, parent, now, region);
      now := now[i := P.Rebranch(now[i], parent.branch)];
    }
    assert now == RebranchAll(ts, parent.branch);
    assert ss[..|ss|] == ss;
  }

  method LiftNext(ss: seq<Section>, i: nat, parent: Section, ghost now: seq<Tree>, ghost region: set<Section>)
    requires Stand(ss, now, region) && i < |ss| && parent !in region && Under(ss[..i], parent)
    modifies region`parent, region`branch
    ensures Stand(ss, now[i := P.Rebranch(now[i], parent.branch)], region)
    ensures parent.branch == old(parent.branch) && Under(ss[..i + 1], parent)
  {
    assert ss[i] in ss[i].Repr;
    forall j | 0 <= j < i ensures ss[j] != ss[i] && ss[j].parent == parent {
      assert ss[j] in ss[j].Repr && ss[j].Repr !! ss[i].Repr;
      assert ss[j] in ss[..i];
    }
    LiftOne(ss, i, parent, now, region);
  }

  /** One section: what takes its place under parent. */
  method PruneSection(s: Section, parent: Section?, ghost t: Tree, ghost pt: Option<Tree>) returns (kept: seq<Section>)
    requires Is(s, t) && s.parent == parent && Heads(parent, pt) && parent !in s.Repr
    modifies s.Repr`parent, s.Repr`branch, s.Repr`sections
    ensures Stand(kept, P.PruneOne(t, pt), s.Repr) && Under(kept, parent)
    decreases t, 1
  {
    PruneBelow(s, t);
    ghost var kids := P.Prune(t.kids, Some(t));
    if parent != null
      && (s.start == s.end || (s.start == parent.start && s.end == parent.end)) {
      LiftAll(s.sections, parent, kids, s.Repr);
      kept := s.sections;
    } else {
      kept := [s];
    }
  }

  method PruneBelow(s: Section, ghost t: Tree)
    requires Is(s, t)
    modifies s.Repr`parent, s.Repr`branch, s.Repr`sections
    ensures Is(s, t.(kids := P.Prune(t.kids, Some(t)))) && s.parent == old(s.parent)
    decreases t, 0
  {
    ghost var below := s.Repr - {s};
    var kept := PruneRedundant(s.sections, s, t.kids, Some(t), below);
    s.sections := kept;
    forall i | 0 <= i < |kept| ensures Is(kept[i], P.Prune(t.kids, Some(t))[i]) && kept[i].parent == s {
    }
  }

  lemma StandTogether(a: seq<Section>, x: seq<Tree>, r: set<Section>, b: seq<Section>, y: seq<Tree>, q: set<Section>)
    requires Stand(a, x, r) && Stand(b, y, q) && r !! q
    ensures Stand(a + b, x + y, r + q)
  {
    forall i, j | 0 <= i < j < |a + b| ensures (a + b)[i].Repr !! (a + b)[j].Repr {
      assert i < |a| <= j ==> a[i].Repr <= r && b[j - |a|].Repr <= q;
    }
  }

  /** The sections of ss from i on are as declared, away from what was handled before. */
  ghost predicate Awaits(ss: seq<Section>, ts: seq<Tree>, i: nat, parent: Section?, done: set<Section>)
    reads ss, set s, o | s in ss && o in s.Repr :: o
  {
    |ss| == |ts| && forall j | i <= j < |ss| :: Is(ss[j], ts[j]) && ss[j].parent == parent && ss[j].Repr !! done
  }

  method PruneNext(ss: seq<Section>, i: nat, parent: Section?, ghost ts: seq<Tree>, ghost pt: Option<Tree>,
                   ghost done: set<Section>, before: seq<Section>, ghost were: seq<Tree>)
    returns (kept: seq<Section>)
    requires i < |ss| == |ts| && Awaits(ss, ts, i, parent, done) && Stand(before, were, done) && Under(before, parent)
    requires forall j | i < j < |ss| :: ss[i].Repr !! ss[j].Repr
    requires Heads(parent, pt) && parent !in ss[i].Repr
    modifies ss[i].Repr`parent, ss[i].Repr`branch, ss[i].Repr`sections
    ensures Stand(kept, were + P.PruneOne(ts[i], pt), done + ss[i].Repr) && Under(kept, parent)
    ensures Awaits(ss, ts, i + 1, parent, done + ss[i].Repr)
    decreases ts[i], 2
  {
    var here := PruneSection(ss[i], parent, ts[i], pt);
    forall j | i < j < |ss| ensures Is(ss[j], ts[j]) && ss[j].parent == parent {
      assert old(Is(ss[j], ts[j]) && ss[j].parent == parent);
      assert ss[j] in ss[j].Repr;
    }
    forall j | 0 <= j < |before| ensures Is(before[j], were[j]) && before[j].parent == parent {
      assert before[j] in before && old(Is(before[j], were[j])) && old(before[j].parent == parent);
      assert before[j] in before[j].Repr;
    }
    StandTogether(before, were, done, here, P.PruneOne(ts[i], pt), ss[i].Repr);
    kept := before + here;
  }

  /** The sections that take the place of ss under parent. */
  method PruneRedundant(ss: seq<Section>, parent: Section?, ghost ts: seq<Tree>, ghost pt: Option<Tree>,
                        ghost region: set<Section>)
    returns (kept: seq<Section>)
    requires Stand(ss, ts, region) && Under(ss, parent) && Heads(parent, pt) && parent !in region
    modifies region`parent, region`branch, region`sections
    ensures Stand(kept, P.Prune(ts, pt), region) && Under(kept, parent)
    decreases ts
  {
    kept := [];
    ghost var done: set<Section> := {};
    assert ts[..0] == [];
    for i := 0 to |ss|
      invariant Heads(parent, pt) && done <= region
      invariant Stand(kept, P.Prune(ts[..i], pt), done) && Under(kept, parent)
      invariant Awaits(ss, ts, i, parent, done)
    {
      PruneOneMore(ts, i, pt);
      kept := PruneNext(ss, i, parent, ts, pt, done, kept, P.Prune(ts[..i], pt));
      done := done + ss[i].Repr;
    }
    assert ts[..|ss|] == ts;
  }
}
