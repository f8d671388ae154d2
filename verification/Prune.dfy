/** markdown/parser.go, pruneRedundant and rebranch on plain values: sections that repeat their parent's range,
    or hold no text, go, and their children take their place. */
module Prune {
  import opened Wrappers
  import opened Order

  /** What a section keeps for life; its branch and its children may be rewritten. */
  datatype Head = Head(id: nat, level: nat, start: int, end: int)

  datatype Tree = Node(head: Head, branch: seq<nat>, kids: seq<Tree>)

  predicate SameRange(a: Head, b: Head) { a.start == b.start && a.end == b.end }

  predicate Redundant(s: Head, parent: Option<Tree>) {
    parent.Some? && (s.start == s.end || SameRange(s, parent.value.head))
  }

  function Rebranch(s: Tree, above: seq<nat>): Tree {
    Node(s.head, above + [s.head.id], RebranchAll(s.kids, above + [s.head.id]))
  }

  function RebranchAll(ss: seq<Tree>, above: seq<nat>): (r: seq<Tree>)
    ensures |r| == |ss| && forall i | 0 <= i < |ss| :: r[i] == Rebranch(ss[i], above)
  {
    if ss == [] then [] else [Rebranch(ss[0], above)] + RebranchAll(ss[1..], above)
  }

  /** One section: its own children first, then the section itself against its parent as it was declared. */
  function PruneOne(s: Tree, parent: Option<Tree>): seq<Tree> {
    var kids := Prune(s.kids, Some(s));
    if Redundant(s.head, parent) then RebranchAll(kids, parent.value.branch) else [s.(kids := kids)]
  }

  function Prune(ss: seq<Tree>, parent: Option<Tree>): seq<Tree> {
    if ss == [] then [] else PruneOne(ss[0], parent) + Prune(ss[1..], parent)
  }

  // ---- the reference: each section against its nearest surviving ancestor ----

  /** From the top: a section goes when it is empty or has the range of its nearest surviving ancestor, named
      by above; a survivor's branch is its surviving ancestors and itself. */
  function TopDownOne(s: Tree, above: Option<Tree>): seq<Tree> {
    if Redundant(s.head, above) then TopDown(s.kids, above)
    else
      var branch := (if above.Some? then above.value.branch else []) + [s.head.id];
      [Node(s.head, branch, TopDown(s.kids, Some(Node(s.head, branch, []))))]
  }

  function TopDown(ss: seq<Tree>, above: Option<Tree>): seq<Tree> {
    if ss == [] then [] else TopDownOne(ss[0], above) + TopDown(ss[1..], above)
  }

  /** Branches name the sections above. */
  predicate ExactBranches(ss: seq<Tree>, above: seq<nat>) {
    forall s | s in ss :: s.branch == above + [s.head.id] && ExactBranches(s.kids, s.branch)
  }

  /** A child's range lies in its parent's, and no range is inverted. */
  predicate Nested(ss: seq<Tree>, parent: Option<Head>) {
    forall s | s in ss ::
      && s.head.start <= s.head.end
      && (parent.Some? ==> parent.value.start <= s.head.start && s.head.end <= parent.value.end)
      && Nested(s.kids, Some(s.head))
  }

  /** Nothing below an empty section holds text. */
  predicate Hollow(ss: seq<Tree>) {
    forall s | s in ss :: (s.head.start == s.head.end ==> AllEmpty(s.kids)) && Hollow(s.kids)
  }

  predicate AllEmpty(ss: seq<Tree>) {
    forall s | s in ss :: s.head.start == s.head.end && AllEmpty(s.kids)
  }

  /** No section below the roots is empty or repeats its parent's range. */
  predicate Lean(ss: seq<Tree>, parent: Option<Tree>) {
    forall s | s in ss :: !Redundant(s.head, parent) && Lean(s.kids, Some(s))
  }

  /** Read off the tree before the pass: no section that is kept has the range of its nearest kept ancestor, named by
      above. A section is kept when it is not empty and has not the range of the parent it was declared under. */
  predicate NoRepeats(ss: seq<Tree>, declared: Option<Tree>, above: Option<Tree>) {
    forall s | s in ss ::
      if Redundant(s.head, declared) then NoRepeats(s.kids, Some(s), above)
      else (above.None? || !SameRange(s.head, above.value.head)) && NoRepeats(s.kids, Some(s), Some(s))
  }

  function Preorder(ss: seq<Tree>): seq<Head> {
    if ss == [] then [] else [ss[0].head] + Preorder(ss[0].kids) + Preorder(ss[1..])
  }

  function BranchOf(parent: Option<Tree>): seq<nat> { if parent.Some? then parent.value.branch else [] }

  // ---- nesting ----

  lemma {:induction false} EmptyRangeHoldsNothing(ss: seq<Tree>, h: Head)
    requires Nested(ss, Some(h)) && h.start == h.end
    ensures AllEmpty(ss)
  {
    forall s | s in ss ensures s.head.start == s.head.end && AllEmpty(s.kids) {
      EmptyRangeHoldsNothing(s.kids, s.head);
    }
  }

  lemma {:induction false} NestedIsHollow(ss: seq<Tree>, parent: Option<Head>)
    requires Nested(ss, parent)
    ensures Hollow(ss)
  {
    forall s | s in ss ensures (s.head.start == s.head.end ==> AllEmpty(s.kids)) && Hollow(s.kids) {
      if s.head.start == s.head.end { EmptyRangeHoldsNothing(s.kids, s.head); }
      NestedIsHollow(s.kids, Some(s.head));
    }
  }

  lemma {:induction false} EmptyRepeatsNothing(ss: seq<Tree>, declared: Tree, above: Option<Tree>)
    requires AllEmpty(ss)
    ensures NoRepeats(ss, Some(declared), above)
  {
    forall s | s in ss ensures NoRepeats(s.kids, Some(s), above) { EmptyRepeatsNothing(s.kids, s, above); }
  }

  /** Where empty sections hold nothing, the declared parent is the nearest kept ancestor or has its range. */
  lemma {:induction false} HollowRepeatsNothing(ss: seq<Tree>, declared: Option<Tree>, above: Option<Tree>)
    requires Hollow(ss) && declared.Some? == above.Some?
    requires declared.Some? ==> SameRange(declared.value.head, above.value.head)
    ensures NoRepeats(ss, declared, above)
  {
    forall s | s in ss
      ensures if Redundant(s.head, declared) then NoRepeats(s.kids, Some(s), above)
              else (above.None? || !SameRange(s.head, above.value.head)) && NoRepeats(s.kids, Some(s), Some(s))
    {
      if !Redundant(s.head, declared) {
        HollowRepeatsNothing(s.kids, Some(s), Some(s));
      } else if s.head.start == s.head.end {
        EmptyRepeatsNothing(s.kids, s, above);
      } else {
        HollowRepeatsNothing(s.kids, Some(s), above);
      }
    }
  }

  // ---- what is left is lean ----

  lemma {:induction false} LeanRebranched(ss: seq<Tree>, above: seq<nat>, parent: Option<Tree>)
    ensures Lean(RebranchAll(ss, above), parent) <==> Lean(ss, parent)
  {
    var r := RebranchAll(ss, above);
    forall i | 0 <= i < |ss|
      ensures r[i].head == ss[i].head && (Lean(r[i].kids, Some(r[i])) <==> Lean(ss[i].kids, Some(ss[i])))
    {
      LeanRebranched(ss[i].kids, above + [ss[i].head.id], Some(r[i]));
      LeanSame(ss[i].kids, r[i], ss[i]);
    }
    assert forall i | 0 <= i < |ss| :: ss[i] in ss && r[i] in r;
    forall x | x in r ensures exists i :: 0 <= i < |ss| && r[i] == x {}
    forall x | x in ss ensures exists i :: 0 <= i < |ss| && ss[i] == x {}
  }

  /** A parent counts by its range. */
  lemma LeanSame(ss: seq<Tree>, a: Tree, b: Tree)
    requires SameRange(a.head, b.head)
    ensures Lean(ss, Some(a)) <==> Lean(ss, Some(b))
  {
    assert forall s | s in ss :: Redundant(s.head, Some(a)) <==> Redundant(s.head, Some(b));
  }

  lemma LeanConcat(a: seq<Tree>, b: seq<Tree>, parent: Option<Tree>)
    ensures Lean(a + b, parent) <==> Lean(a, parent) && Lean(b, parent)
  {
    assert forall s :: s in a + b <==> s in a || s in b;
  }

  lemma {:induction false} LeanExactly(ss: seq<Tree>, declared: Option<Tree>, above: Option<Tree>)
    requires declared.Some? == above.Some?
    ensures Lean(Prune(ss, declared), above) <==> NoRepeats(ss, declared, above)
    decreases ss, 1
  {
    if ss != [] {
      var s := ss[0];
      LeanExactlyOne(s, declared, above);
      LeanExactly(ss[1..], declared, above);
      LeanConcat(PruneOne(s, declared), Prune(ss[1..], declared), above);
      assert forall x :: x in ss <==> x == s || x in ss[1..];
    }
  }

  lemma {:induction false} LeanExactlyOne(s: Tree, declared: Option<Tree>, above: Option<Tree>)
    requires declared.Some? == above.Some?
    ensures Lean(PruneOne(s, declared), above) <==>
      if Redundant(s.head, declared) then NoRepeats(s.kids, Some(s), above)
      else (above.None? || !SameRange(s.head, above.value.head)) && NoRepeats(s.kids, Some(s), Some(s))
    decreases s, 0
  {
    var kids := Prune(s.kids, Some(s));
    if Redundant(s.head, declared) {
      LeanExactly(s.kids, Some(s), above);
      LeanRebranched(kids, declared.value.branch, above);
    } else {
      LeanExactly(s.kids, Some(s), Some(s));
      LeanSame(kids, s, s.(kids := kids));
      assert PruneOne(s, declared) == [s.(kids := kids)];
    }
  }

  // ---- a pass changes nothing exactly on a lean tree ----

  function Size(ss: seq<Tree>): nat { if ss == [] then 0 else 1 + Size(ss[0].kids) + Size(ss[1..]) }

  lemma {:induction false} SizeConcat(a: seq<Tree>, b: seq<Tree>)
    ensures Size(a + b) == Size(a) + Size(b)
  {
    if a == [] {
      assert a + b == b;
    } else {
      assert (a + b)[1..] == a[1..] + b;
      SizeConcat(a[1..], b);
    }
  }

  lemma {:induction false} SizeRebranched(ss: seq<Tree>, above: seq<nat>)
    ensures Size(RebranchAll(ss, above)) == Size(ss)
  {
    if ss != [] {
      SizeRebranched(ss[0].kids, above + [ss[0].head.id]);
      SizeRebranched(ss[1..], above);
    }
  }

  lemma {:induction false} PruneSize(ss: seq<Tree>, parent: Option<Tree>)
    ensures Size(Prune(ss, parent)) <= Size(ss)
    ensures Size(Prune(ss, parent)) == Size(ss) ==> Lean(ss, parent)
  {
    if ss != [] {
      var s, kids := ss[0], Prune(ss[0].kids, Some(ss[0]));
      PruneSize(s.kids, Some(s));
      PruneSize(ss[1..], parent);
      SizeConcat(PruneOne(s, parent), Prune(ss[1..], parent));
      if Redundant(s.head, parent) {
        SizeRebranched(kids, parent.value.branch);
      } else {
        assert PruneOne(s, parent) == [s.(kids := kids)] && [s.(kids := kids)][1..] == [];
      }
    }
  }

  lemma StableExactly(ss: seq<Tree>, parent: Option<Tree>)
    ensures Prune(ss, parent) == ss <==> Lean(ss, parent)
  {
    PruneSize(ss, parent);
    if Lean(ss, parent) { LeanStays(ss, parent); }
  }

  // ---- bottom up is top down ----

  lemma {:induction false} RebranchTwice(ss: seq<Tree>, a: seq<nat>, b: seq<nat>)
    ensures RebranchAll(RebranchAll(ss, a), b) == RebranchAll(ss, b)
  {
    if ss != [] {
      RebranchTwice(ss[0].kids, a + [ss[0].head.id], b + [ss[0].head.id]);
      RebranchTwice(ss[1..], a, b);
      assert RebranchAll(ss, a)[1..] == RebranchAll(ss[1..], a);
    }
  }

  lemma RebranchConcat(a: seq<Tree>, b: seq<Tree>, above: seq<nat>)
    ensures RebranchAll(a + b, above) == RebranchAll(a, above) + RebranchAll(b, above)
  {
  }

  /** Branches that are exact already are left. */
  lemma {:induction false} RebranchExact(ss: seq<Tree>, above: seq<nat>)
    ensures ExactBranches(ss, above) <==> RebranchAll(ss, above) == ss
  {
    var r := RebranchAll(ss, above);
    forall i | 0 <= i < |ss|
      ensures r[i] == ss[i] <==> ss[i].branch == above + [ss[i].head.id] && ExactBranches(ss[i].kids, ss[i].branch)
    {
      RebranchExact(ss[i].kids, above + [ss[i].head.id]);
    }
    assert forall i | 0 <= i < |ss| :: ss[i] in ss;
  }

  /** below is dropped, and has the range of the kept ancestor unless it is empty: what is kept under it is what the
      reference keeps under that ancestor. */
  lemma {:induction false} KeptBelow(ss: seq<Tree>, declared: Tree, above: Tree)
    requires NoRepeats(ss, Some(declared), Some(above))
    requires declared.head.start == declared.head.end || SameRange(declared.head, above.head)
    ensures RebranchAll(Prune(ss, Some(declared)), above.branch) == TopDown(ss, Some(above))
    decreases ss, 1
  {
    if ss != [] {
      assert ss[0] in ss;
      KeptBelowOne(ss[0], declared, above);
      KeptBelow(ss[1..], declared, above);
      RebranchConcat(PruneOne(ss[0], Some(declared)), Prune(ss[1..], Some(declared)), above.branch);
    }
  }

  lemma {:induction false} KeptBelowOne(s: Tree, declared: Tree, above: Tree)
    requires if Redundant(s.head, Some(declared)) then NoRepeats(s.kids, Some(s), Some(above))
      else !SameRange(s.head, above.head) && NoRepeats(s.kids, Some(s), Some(s))
    requires declared.head.start == declared.head.end || SameRange(declared.head, above.head)
    ensures RebranchAll(PruneOne(s, Some(declared)), above.branch) == TopDownOne(s, Some(above))
    decreases s, 0
  {
    var kids := Prune(s.kids, Some(s));
    if Redundant(s.head, Some(declared)) {
      KeptBelow(s.kids, s, above);
      RebranchTwice(kids, declared.branch, above.branch);
    } else {
      var bare := Node(s.head, above.branch + [s.head.id], []);
      NoRepeatsSame(s.kids, s, s, bare);
      KeptBelow(s.kids, s, bare);
      assert RebranchAll([s.(kids := kids)], above.branch) == [Rebranch(s.(kids := kids), above.branch)];
    }
  }

  lemma {:induction false} NoRepeatsSame(ss: seq<Tree>, declared: Tree, a: Tree, b: Tree)
    requires NoRepeats(ss, Some(declared), Some(a)) && SameRange(a.head, b.head)
    ensures NoRepeats(ss, Some(declared), Some(b))
  {
    forall s | s in ss && Redundant(s.head, Some(declared)) ensures NoRepeats(s.kids, Some(s), Some(b)) {
      NoRepeatsSame(s.kids, s, a, b);
    }
  }

  lemma {:induction false} PruneExactBranches(ss: seq<Tree>, parent: Option<Tree>)
    requires ExactBranches(ss, BranchOf(parent))
    ensures ExactBranches(Prune(ss, parent), BranchOf(parent))
  {
    if ss != [] {
      var s, kids := ss[0], Prune(ss[0].kids, Some(ss[0]));
      assert s in ss;
      PruneExactBranches(s.kids, Some(s));
      PruneExactBranches(ss[1..], parent);
      if Redundant(s.head, parent) {
        RebranchTwice(kids, parent.value.branch, parent.value.branch);
        RebranchExact(RebranchAll(kids, parent.value.branch), parent.value.branch);
      }
      assert forall x | x in Prune(ss, parent) :: x in PruneOne(s, parent) || x in Prune(ss[1..], parent);
    }
  }

  /** Pruning bottom up against the declared parent is pruning top down against the nearest survivor, exactly where no
      kept section repeats its nearest kept ancestor. */
  lemma PruneIsTopDown(ss: seq<Tree>)
    requires ExactBranches(ss, [])
    ensures Prune(ss, None) == TopDown(ss, None) <==> NoRepeats(ss, None, None)
  {
    LeanExactly(ss, None, None);
    TopDownLean(ss, None);
    if NoRepeats(ss, None, None) { RootsKept(ss); }
  }

  lemma {:induction false} RootsKept(ss: seq<Tree>)
    requires ExactBranches(ss, []) && NoRepeats(ss, None, None)
    ensures Prune(ss, None) == TopDown(ss, None)
  {
    if ss != [] {
      var s := ss[0];
      assert s in ss;
      var bare := Node(s.head, s.branch, []);
      assert [] + [s.head.id] == [s.head.id];
      NoRepeatsSame(s.kids, s, s, bare);
      KeptBelow(s.kids, s, bare);
      PruneExactBranches(s.kids, Some(s));
      RebranchExact(Prune(s.kids, Some(s)), s.branch);
      RootsKept(ss[1..]);
    }
  }

  // ---- what the reference keeps ----

  lemma {:induction false} TopDownLean(ss: seq<Tree>, above: Option<Tree>)
    ensures Lean(TopDown(ss, above), above)
    ensures ExactBranches(TopDown(ss, above), BranchOf(above))
  {
    if ss != [] {
      TopDownLeanOne(ss[0], above);
      TopDownLean(ss[1..], above);
    }
  }

  lemma {:induction false} TopDownLeanOne(s: Tree, above: Option<Tree>)
    ensures Lean(TopDownOne(s, above), above)
    ensures ExactBranches(TopDownOne(s, above), BranchOf(above))
  {
    if Redundant(s.head, above) {
      TopDownLean(s.kids, above);
    } else {
      var branch := BranchOf(above) + [s.head.id];
      var bare := Node(s.head, branch, []);
      TopDownLean(s.kids, Some(bare));
      LeanSame(TopDown(s.kids, Some(bare)), bare, Node(s.head, branch, TopDown(s.kids, Some(bare))));
    }
  }

  lemma {:induction false} PreorderRebranched(ss: seq<Tree>, above: seq<nat>)
    ensures Preorder(RebranchAll(ss, above)) == Preorder(ss)
  {
    if ss != [] {
      PreorderRebranched(ss[0].kids, above + [ss[0].head.id]);
      PreorderRebranched(ss[1..], above);
    }
  }

  lemma {:induction false} PruneSubsequence(ss: seq<Tree>, parent: Option<Tree>)
    ensures Subsequence(Preorder(Prune(ss, parent)), Preorder(ss))
  {
    if ss != [] {
      var one, rest := PruneOne(ss[0], parent), Prune(ss[1..], parent);
      PruneSubsequence(ss[0].kids, Some(ss[0]));
      OneSubsequence(ss[0], parent);
      PruneSubsequence(ss[1..], parent);
      PreorderConcat(one, rest);
      SubsequenceConcat(Preorder(one), [ss[0].head] + Preorder(ss[0].kids), Preorder(rest), Preorder(ss[1..]));
    }
  }

  lemma OneSubsequence(s: Tree, parent: Option<Tree>)
    requires Subsequence(Preorder(Prune(s.kids, Some(s))), Preorder(s.kids))
    ensures Subsequence(Preorder(PruneOne(s, parent)), [s.head] + Preorder(s.kids))
  {
    var kids, all := Prune(s.kids, Some(s)), [s.head] + Preorder(s.kids);
    assert all[1..] == Preorder(s.kids);
    if Redundant(s.head, parent) {
      PreorderRebranched(kids, parent.value.branch);
    } else {
      var one := PruneOne(s, parent);
      assert one[1..] == [];
      assert Preorder(one) == [s.head] + Preorder(kids);
      assert Preorder(one)[1..] == Preorder(kids);
    }
  }

  lemma {:induction false} PreorderConcat(a: seq<Tree>, b: seq<Tree>)
    ensures Preorder(a + b) == Preorder(a) + Preorder(b)
  {
    if a == [] {
      assert a + b == b;
    } else {
      assert (a + b)[1..] == a[1..] + b;
      PreorderConcat(a[1..], b);
    }
  }

  lemma {:induction false} SubsequenceConcat<T>(a: seq<T>, b: seq<T>, c: seq<T>, d: seq<T>)
    requires Subsequence(a, b) && Subsequence(c, d)
    ensures Subsequence(a + c, b + d)
    decreases |b|
  {
    if b == [] {
      assert a + c == c && b + d == d;
    } else {
      assert (b + d)[1..] == b[1..] + d;
      if a == [] {
        SubsequenceConcat(a, b[1..], c, d);
      } else if a[0] == b[0] && Subsequence(a[1..], b[1..]) {
        assert (a + c)[1..] == a[1..] + c;
        SubsequenceConcat(a[1..], b[1..], c, d);
      } else {
        SubsequenceConcat(a, b[1..], c, d);
      }
    }
  }

  lemma {:induction false} LeanStays(ss: seq<Tree>, parent: Option<Tree>)
    requires Lean(ss, parent)
    ensures Prune(ss, parent) == ss
  {
    if ss != [] {
      assert ss[0] in ss;
      LeanStays(ss[0].kids, Some(ss[0]));
      LeanStays(ss[1..], parent);
    }
  }

  /** On any tree with exact branches, what is left keeps its order, its roots and exact branches. Four things are one:
      no kept section repeats its nearest kept ancestor; nothing redundant is left; exactly the sections are removed
      that are empty or repeat their nearest survivor; a second pass changes nothing. */
  lemma PruneCorrect(ss: seq<Tree>)
    requires ExactBranches(ss, [])
    ensures var kept := Prune(ss, None);
      && ExactBranches(kept, []) && Subsequence(Preorder(kept), Preorder(ss))
      && |kept| == |ss| && (forall i | 0 <= i < |ss| :: kept[i].head == ss[i].head)
      && (Lean(kept, None) <==> NoRepeats(ss, None, None))
      && (kept == TopDown(ss, None) <==> NoRepeats(ss, None, None))
      && (Prune(kept, None) == kept <==> NoRepeats(ss, None, None))
  {
    hide NoRepeats, Lean, Subsequence, Preorder, TopDown, ExactBranches;
    PruneExactBranches(ss, None);
    PruneSubsequence(ss, None);
    RootsStay(ss);
    PruneIsTopDown(ss);
    LeanExactly(ss, None, None);
    StableExactly(Prune(ss, None), None);
  }

  lemma {:induction false} RootsStay(ss: seq<Tree>)
    ensures |Prune(ss, None)| == |ss| && forall i | 0 <= i < |ss| :: Prune(ss, None)[i].head == ss[i].head
  {
    if ss != [] { RootsStay(ss[1..]); }
  }

  lemma PruneSingle(s: Tree, parent: Option<Tree>)
    ensures Prune([s], parent) == PruneOne(s, parent)
  {
    assert [s][1..] == [];
  }

  lemma {:induction false} PruneOneMore(ss: seq<Tree>, i: nat, parent: Option<Tree>)
    requires i < |ss|
    ensures Prune(ss[..i + 1], parent) == Prune(ss[..i], parent) + PruneOne(ss[i], parent)
  {
    hide PruneOne;
    if i > 0 {
      assert ss[..i + 1][1..] == ss[1..][..i] && ss[..i][1..] == ss[1..][..i - 1];
      assert ss[..i + 1][0] == ss[..i][0] == ss[0];
      PruneOneMore(ss[1..], i - 1, parent);
    } else {
      assert ss[..1][1..] == [];
    }
  }
}
