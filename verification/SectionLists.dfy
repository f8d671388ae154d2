/** Sections as both parsers list them: in the order of their creation, each with the number of its parent. */
module SectionLists {

  /** A section; its id is its position in the list, parent is -1 for a root. */
  datatype Sec = Sec(level: nat, parent: int, start: int, end: nat, branch: seq<nat>, kids: seq<nat>)

  /** The children of p, oldest first. */
  function ChildrenOf(secs: seq<Sec>, p: nat): seq<nat> {
    if secs == [] then []
    else ChildrenOf(secs[..|secs| - 1], p) + if secs[|secs| - 1].parent == p then [|secs| - 1] else []
  }

  lemma {:induction false} ChildrenAre(secs: seq<Sec>, p: nat)
    ensures forall i | i in ChildrenOf(secs, p) :: i < |secs| && secs[i].parent == p
  {
    if secs != [] { ChildrenAre(secs[..|secs| - 1], p); }
  }

  lemma {:induction false} ChildrenSame(a: seq<Sec>, b: seq<Sec>, p: nat)
    requires |a| == |b| && forall i | 0 <= i < |a| :: a[i].parent == b[i].parent
    ensures ChildrenOf(a, p) == ChildrenOf(b, p)
  {
    if a != [] { ChildrenSame(a[..|a| - 1], b[..|b| - 1], p); }
  }

  /** A section yet to come has no children. */
  lemma {:induction false} NoChildrenYet(secs: seq<Sec>, p: nat)
    requires forall i | 0 <= i < |secs| :: secs[i].parent < p
    ensures ChildrenOf(secs, p) == []
  {
    if secs != [] { NoChildrenYet(secs[..|secs| - 1], p); }
  }
}
