/** sourcecode/parser.go, nestSections: the byte ranges of declarations, in any order, become a tree of sections
    by containment. Sections are numbered in the order of their creation; the file is section 0. */
module Nesting {
  import opened Order
  import opened SectionLists

  /** A declaration, as byte offsets. */
  datatype Range = Range(start: int, end: nat)

  /** The tree so far, and the sections still open, outermost first. */
  datatype Nest = Nest(secs: seq<Sec>, stack: seq<nat>)

  /** By start, the longest first. */
  predicate Precedes(a: Range, b: Range) { a.start < b.start || (a.start == b.start && a.end >= b.end) }

  /** slices.Compact: adjacent repeats go. */
  function Compact(rs: seq<Range>): (r: seq<Range>)
    ensures rs != [] ==> r != [] && r[0] == rs[0]
  {
    if |rs| < 2 then rs
    else if rs[0] == rs[1] then Compact(rs[1..])
    else [rs[0]] + Compact(rs[1..])
  }

  function Declared(ranges: seq<Range>): seq<Range> { Compact(Sort(Precedes, ranges)) }

  function Begin(size: nat): Nest { Nest([Sec(0, -1, 0, size, [0], [])], [0]) }

  predicate Ready(n: Nest) { n.stack != [] && forall k | 0 <= k < |n.stack| :: n.stack[k] < |n.secs| }

  function Top(n: Nest): (r: nat)
    requires Ready(n)
    ensures r < |n.secs|
  {
    n.stack[|n.stack| - 1]
  }

  /** Sections that end before start are closed; the file stays open. */
  function Pop(n: Nest, start: int): (r: Nest)
    requires Ready(n)
    ensures Ready(r) && r.secs == n.secs && r.stack <= n.stack
    decreases |n.stack|
  {
    if |n.stack| > 1 && start >= n.secs[Top(n)].end then Pop(n.(stack := n.stack[..|n.stack| - 1]), start) else n
  }

  /** The range becomes a section under the innermost open one, cut to fit it; a repeat of it is skipped. */
  function Push(n: Nest, r: Range): (m: Nest)
    requires Ready(n)
    ensures Ready(m)
  {
    var t, id := Top(n), |n.secs|;
    var p := n.secs[t];
    if r.start == p.start && r.end == p.end then n
    else
      var start := if r.start < p.start then p.start else r.start;
      var end := if r.end > p.end then p.end else r.end;
      Nest(n.secs[t := p.(kids := p.kids + [id])] + [Sec(p.level + 1, t, start, end, p.branch + [id], [])],
        n.stack + [id])
  }

  function Step(n: Nest, r: Range): (m: Nest)
    requires Ready(n)
    ensures Ready(m)
  {
    Push(Pop(n, r.start), r)
  }

  function Run(size: nat, rs: seq<Range>): (n: Nest)
    ensures Ready(n)
  {
    if rs == [] then Begin(size) else Step(Run(size, rs[..|rs| - 1]), rs[|rs| - 1])
  }

  lemma RunOneMore(size: nat, rs: seq<Range>, i: nat)
    requires i < |rs|
    ensures Run(size, rs[..i + 1]) == Step(Run(size, rs[..i]), rs[i])
  {
    assert rs[..i + 1][..i] == rs[..i];
  }

  /** One range: closes the sections before it, then opens its own. */
  method Open(secs0: seq<Sec>, stack0: seq<nat>, r: Range) returns (secs: seq<Sec>, stack: seq<nat>)
    requires Ready(Nest(secs0, stack0))
    ensures Nest(secs, stack) == Step(Nest(secs0, stack0), r)
  {
    secs, stack := secs0, stack0;
    while |stack| > 1 && r.start >= secs[stack[|stack| - 1]].end
      invariant secs == secs0 && Ready(Nest(secs, stack))
      invariant Pop(Nest(secs, stack), r.start) == Pop(Nest(secs0, stack0), r.start)
    {
      stack := stack[..|stack| - 1];
    }
    var parent := stack[|stack| - 1];
    var p := secs[parent];
    if r.start == p.start && r.end == p.end { return; }
    var start, end := r.start, r.end;
    if start < p.start { start := p.start; }
    if end > p.end { end := p.end; }
    var id := |secs|;
    secs := secs[parent := p.(kids := p.kids + [id])] + [Sec(p.level + 1, parent, start, end, p.branch + [id], [])];
    stack := stack + [id];
  }

  method NestSections(size: nat, ranges: seq<Range>) returns (secs: seq<Sec>)
    ensures secs == Run(size, Declared(ranges)).secs
  {
    var rs := Compact(Sort(Precedes, ranges));
    secs := [Sec(0, -1, 0, size, [0], [])];
    var stack: seq<nat> := [0];
    assert rs[..0] == [];
    for i := 0 to |rs|
      invariant Nest(secs, stack) == Run(size, rs[..i])
    {
      RunOneMore(size, rs, i);
      secs, stack := Open(secs, stack, rs[i]);
    }
    assert rs[..|rs|] == rs;
  }

  // ---- the order ----

  lemma PrecedesOrder()
    ensures Total(Precedes) && Antisymmetric(Precedes)
  {
  }

  predicate Increasing(rs: seq<Range>) {
    forall i, j | 0 <= i < j < |rs| :: Precedes(rs[i], rs[j]) && rs[i] != rs[j]
  }

  lemma {:induction false} CompactIncreasing(rs: seq<Range>)
    requires Sorted(Precedes, rs)
    ensures Increasing(Compact(rs))
    ensures forall r :: r in Compact(rs) <==> r in rs
  {
    if |rs| >= 2 {
      var tail := rs[1..];
      CompactIncreasing(tail);
      assert rs == [rs[0]] + tail;
      if rs[0] != rs[1] {
        var rest := Compact(tail);
        forall j | 0 <= j < |rest| ensures Precedes(rs[0], rest[j]) && rest[j] != rs[0] {
          assert Precedes(rs[0], rs[1]);
          assert j == 0 || Precedes(rest[0], rest[j]);
        }
      }
    }
  }

  /** The distinct ranges in strict order. */
  lemma DeclaredOrdered(ranges: seq<Range>)
    ensures Increasing(Declared(ranges))
    ensures forall r :: r in Declared(ranges) <==> r in ranges
  {
    PrecedesOrder();
    SortCorrect(Precedes, ranges);
    CompactIncreasing(Sort(Precedes, ranges));
    forall r ensures r in Sort(Precedes, ranges) <==> r in ranges {
      assert r in multiset(Sort(Precedes, ranges)) <==> r in multiset(ranges);
    }
  }

  // ---- the tree ----

  /** A range with text, inside the file. */
  predicate Inside(size: nat, r: Range) { 0 <= r.start < r.end <= size }

  /** Section i hangs under its parent. */
  predicate Placed(secs: seq<Sec>, i: nat)
    requires i < |secs|
  {
    var s := secs[i];
    if i == 0 then s.parent == -1 && s.level == 0 && s.branch == [0]
    else
      0 <= s.parent < i && var p := secs[s.parent];
      s.level == p.level + 1 && s.branch == p.branch + [i] && p.start <= s.start < s.end <= p.end
  }

  predicate Apart(secs: seq<Sec>, i: nat, j: nat)
    requires i < |secs| && j < |secs|
  {
    secs[i].parent == secs[j].parent ==> secs[i].end <= secs[j].start
  }

  /** Children lie inside their parent and follow its level and branch; siblings are listed in order and disjoint. */
  ghost predicate Tree(secs: seq<Sec>) {
    && secs != []
    && (forall i | 0 <= i < |secs| :: Placed(secs, i))
    && (forall i, j | 0 <= i < j < |secs| :: Apart(secs, i, j))
    && (forall p | 0 <= p < |secs| :: secs[p].kids == ChildrenOf(secs, p))
  }

  /** The open sections are a chain of parents from the file down. */
  predicate Chain(n: Nest) {
    && Ready(n) && n.stack[0] == 0
    && forall k | 0 <= k < |n.stack| - 1 :: n.stack[k] < n.stack[k + 1] && n.secs[n.stack[k + 1]].parent == n.stack[k]
  }

  predicate ClosedBy(n: Nest, at: int) { forall i | 0 <= i < |n.secs| && i !in n.stack :: n.secs[i].end <= at }

  predicate StartedBy(n: Nest, at: int) { forall i | 0 <= i < |n.secs| :: n.secs[i].start <= at }

  ghost predicate Sound(n: Nest, at: int) { Tree(n.secs) && Chain(n) && ClosedBy(n, at) && StartedBy(n, at) }

  lemma {:induction false} ChainIncreases(n: Nest, i: nat, j: nat)
    requires Chain(n) && i < j < |n.stack|
    ensures n.stack[i] < n.stack[j]
    decreases j
  {
    if i < j - 1 { ChainIncreases(n, i, j - 1); }
  }

  lemma {:induction false} PopSound(n: Nest, at: int)
    requires Sound(n, at)
    ensures Sound(Pop(n, at), at) && (|Pop(n, at).stack| > 1 ==> at < n.secs[Top(Pop(n, at))].end)
    decreases |n.stack|
  {
    if |n.stack| > 1 && at >= n.secs[Top(n)].end {
      var m := n.(stack := n.stack[..|n.stack| - 1]);
      forall i | 0 <= i < |m.secs| && i !in m.stack ensures m.secs[i].end <= at {
        assert i in n.stack ==> i == Top(n);
      }
      PopSound(m, at);
    }
  }

  /** No child of the innermost open section is open, so all of them are closed. */
  lemma ChildrenClosed(n: Nest, at: int, i: nat)
    requires Sound(n, at) && i < |n.secs| && n.secs[i].parent == Top(n)
    ensures n.secs[i].end <= at
  {
    if i in n.stack {
      var k :| 0 <= k < |n.stack| && n.stack[k] == i;
      assert Placed(n.secs, i);
      if k > 0 {
        assert n.secs[n.stack[k - 1 + 1]].parent == n.stack[k - 1];
        ChainIncreases(n, k - 1, |n.stack| - 1);
      }
    }
  }

  lemma PushSound(n: Nest, r: Range)
    requires Sound(n, r.start) && r.start < r.end && r.start < n.secs[Top(n)].end
    ensures Sound(Push(n, r), r.start)
  {
    var m, t, id := Push(n, r), Top(n), |n.secs|;
    if m != n {
      PushPlaced(n, r);
      PushApart(n, r);
      forall p | 0 <= p < |m.secs| ensures m.secs[p].kids == ChildrenOf(m.secs, p) { PushKids(n, r, p); }
      PushOpen(n, r);
    }
  }

  lemma PushApart(n: Nest, r: Range)
    requires Sound(n, r.start)
    ensures var m := Push(n, r); forall i, j | 0 <= i < j < |m.secs| :: Apart(m.secs, i, j)
  {
    var m, t, id := Push(n, r), Top(n), |n.secs|;
    if m != n {
      forall i, j | 0 <= i < j < |m.secs| ensures Apart(m.secs, i, j) {
        if j < id { assert Apart(n.secs, i, j); } else if m.secs[i].parent == t { ChildrenClosed(n, r.start, i); }
      }
    }
  }

  lemma PushOpen(n: Nest, r: Range)
    requires Sound(n, r.start)
    ensures var m := Push(n, r); Chain(m) && ClosedBy(m, r.start) && StartedBy(m, r.start)
  {
    var m, id := Push(n, r), |n.secs|;
    if m != n {
      assert forall i | 0 <= i < id :: m.secs[i] == n.secs[i].(kids := m.secs[i].kids);
      PushChain(n, r);
      forall i | 0 <= i < |m.secs| && i !in m.stack ensures m.secs[i].end <= r.start {
        assert m.stack[|n.stack|] == id;
        assert i in n.stack ==> i in m.stack;
      }
    }
  }

  lemma PushChain(n: Nest, r: Range)
    requires Chain(n)
    ensures Chain(Push(n, r))
  {
    var m := Push(n, r);
    if m != n {
      assert forall i | 0 <= i < |n.secs| :: m.secs[i].parent == n.secs[i].parent;
      forall k | 0 <= k < |m.stack| - 1
        ensures m.stack[k] < m.stack[k + 1] && m.secs[m.stack[k + 1]].parent == m.stack[k]
      {
        if k < |n.stack| - 1 { assert n.secs[n.stack[k + 1]].parent == n.stack[k]; }
      }
    }
  }

  lemma PushPlaced(n: Nest, r: Range)
    requires Sound(n, r.start) && r.start < r.end && r.start < n.secs[Top(n)].end
    ensures forall i | 0 <= i < |Push(n, r).secs| :: Placed(Push(n, r).secs, i)
  {
    var m := Push(n, r);
    forall i | 0 <= i < |m.secs| ensures Placed(m.secs, i) {
      if i < |n.secs| { assert Placed(n.secs, i); }
    }
  }

  lemma PushKids(n: Nest, r: Range, p: nat)
    requires Ready(n) && Tree(n.secs) && Push(n, r) != n && p <= |n.secs|
    ensures Push(n, r).secs[p].kids == ChildrenOf(Push(n, r).secs, p)
  {
    var m, id := Push(n, r), |n.secs|;
    assert m.secs[..id] == n.secs[Top(n) := n.secs[Top(n)].(kids := n.secs[Top(n)].kids + [id])];
    ChildrenSame(n.secs, m.secs[..id], p);
    if p == id {
      forall i | 0 <= i < id ensures n.secs[i].parent < id { assert Placed(n.secs, i); }
      NoChildrenYet(n.secs, id);
    }
  }

  lemma BeginSound(size: nat, at: int)
    requires at >= 0
    ensures Sound(Begin(size), at)
  {
    var s := Begin(size).secs;
    assert s[..0] == [] && ChildrenOf(s, 0) == [];
    assert Placed(s, 0) && 0 in Begin(size).stack;
  }

  predicate AllInside(size: nat, rs: seq<Range>) { forall r | r in rs :: Inside(size, r) }

  lemma {:induction false} RunSound(size: nat, rs: seq<Range>, at: int)
    requires AllInside(size, rs) && Increasing(rs) && at >= 0
    requires rs != [] ==> at >= rs[|rs| - 1].start
    ensures Sound(Run(size, rs), at) && Run(size, rs).secs[0].start == 0 && Run(size, rs).secs[0].end == size
  {
    if rs == [] {
      BeginSound(size, at);
    } else {
      var k := |rs| - 1;
      var r := rs[k];
      assert Inside(size, r);
      assert k > 0 ==> Precedes(rs[k - 1], r);
      RunSound(size, rs[..k], r.start);
      StepSound(size, Run(size, rs[..k]), r);
      assert ClosedBy(Run(size, rs), at) && StartedBy(Run(size, rs), at);
    }
  }

  lemma StepSound(size: nat, n: Nest, r: Range)
    requires Sound(n, r.start) && Inside(size, r) && n.secs[0].start == 0 && n.secs[0].end == size
    ensures Sound(Step(n, r), r.start) && Step(n, r).secs[0].start == 0 && Step(n, r).secs[0].end == size
  {
    PopSound(n, r.start);
    PushSound(Pop(n, r.start), r);
  }

  /** Whatever the declarations, as long as each holds text inside the file, the sections form a tree. */
  lemma NestingBuildsATree(size: nat, ranges: seq<Range>)
    requires AllInside(size, ranges)
    ensures Tree(Run(size, Declared(ranges)).secs)
  {
    DeclaredOrdered(ranges);
    var rs := Declared(ranges);
    if rs != [] { assert Inside(size, rs[|rs| - 1]); }
    RunSound(size, rs, if rs == [] then 0 else rs[|rs| - 1].start);
  }

  // ---- ranges that nest or stay apart ----

  predicate Contains(a: Range, b: Range) { a.start <= b.start && b.end <= a.end }

  predicate Laminar(rs: seq<Range>) {
    forall a, b | a in rs && b in rs :: Contains(a, b) || Contains(b, a) || a.end <= b.start || b.end <= a.start
  }

  function RangeOf(s: Sec): Range { Range(s.start, s.end) }

  /** The ranges of the sections below the file, in the order of their creation. */
  function RangesOf(secs: seq<Sec>): (r: seq<Range>)
    ensures |r| == if secs == [] then 0 else |secs| - 1
    ensures forall i | 0 <= i < |r| :: r[i] == RangeOf(secs[i + 1])
  {
    if secs == [] then [] else seq(|secs| - 1, i requires 0 <= i < |secs| - 1 => RangeOf(secs[i + 1]))
  }

  function Without(rs: seq<Range>, whole: Range): (r: seq<Range>)
    ensures forall x :: x in r <==> x in rs && x != whole
  {
    if rs == [] then []
    else Without(rs[..|rs| - 1], whole) + if rs[|rs| - 1] == whole then [] else [rs[|rs| - 1]]
  }

  /** The parent of section i is the smallest of the ranges all, and the file, that strictly contains it. */
  ghost predicate Tight(secs: seq<Sec>, i: nat, all: seq<Range>)
    requires 0 < i < |secs| && 0 <= secs[i].parent < |secs|
  {
    var r, p := RangeOf(secs[i]), RangeOf(secs[secs[i].parent]);
    && Contains(p, r) && p != r
    && forall d | d in all && d != r && Contains(d, r) :: Contains(d, p)
  }

  ghost predicate AllTight(secs: seq<Sec>, all: seq<Range>)
    requires Tree(secs)
  {
    forall i | 0 < i < |secs| :: TightAt(secs, i, all)
  }

  ghost predicate TightAt(secs: seq<Sec>, i: nat, all: seq<Range>)
    requires Tree(secs) && 0 < i < |secs|
  {
    assert Placed(secs, i);
    Tight(secs, i, all)
  }

  /** The ranges still to come do not show: sections are the ranges seen so far, each under its tightest parent. */
  ghost predicate Exact(size: nat, n: Nest, rs: seq<Range>, k: nat, at: int)
    requires k <= |rs|
  {
    && Sound(n, at) && RangeOf(n.secs[0]) == Range(0, size)
    && RangesOf(n.secs) == Without(rs[..k], Range(0, size)) && AllTight(n.secs, rs)
  }

  /** An open section lies within every section opened before it and still open. */
  lemma {:induction false} ChainNested(n: Nest, i: nat, j: nat)
    requires Tree(n.secs) && Chain(n) && i <= j < |n.stack|
    ensures Contains(RangeOf(n.secs[n.stack[i]]), RangeOf(n.secs[n.stack[j]]))
    decreases j
  {
    if i < j {
      ChainNested(n, i, j - 1);
      assert n.secs[n.stack[j - 1 + 1]].parent == n.stack[j - 1];
      assert Placed(n.secs, n.stack[j]);
    }
  }

  /** The innermost open section holds the next range, strictly unless it is the file. */
  lemma TopHolds(size: nat, n: Nest, rs: seq<Range>, k: nat)
    requires k < |rs| && Exact(size, n, rs, k, rs[k].start)
    requires Increasing(rs) && Laminar(rs) && AllInside(size, rs)
    requires |n.stack| > 1 ==> rs[k].start < n.secs[Top(n)].end
    ensures Contains(RangeOf(n.secs[Top(n)]), rs[k])
    ensures RangeOf(n.secs[Top(n)]) == rs[k] <==> rs[k] == Range(0, size)
  {
    var r, t := rs[k], Top(n);
    assert Inside(size, r);
    if t != 0 {
      var a := RangeOf(n.secs[t]);
      assert RangesOf(n.secs)[t - 1] == a;
      assert a in rs[..k];
      var j :| 0 <= j < k && rs[j] == a;
      assert Precedes(rs[j], rs[k]) && rs[j] != rs[k];
      assert Inside(size, a);
      assert |n.stack| > 1;
    }
  }

  /** A section that reaches past the current position is open and holds the innermost open one. */
  lemma OpenHoldsTop(n: Nest, at: int, i: nat)
    requires Tree(n.secs) && Chain(n) && ClosedBy(n, at) && i < |n.secs| && n.secs[i].end > at
    ensures Contains(RangeOf(n.secs[i]), RangeOf(n.secs[Top(n)]))
  {
    assert i in n.stack;
    var q :| 0 <= q < |n.stack| && n.stack[q] == i;
    ChainNested(n, q, |n.stack| - 1);
  }

  /** Every range that strictly contains the next one holds the innermost open section. */
  lemma TopIsTightest(size: nat, n: Nest, rs: seq<Range>, k: nat, d: Range)
    requires k < |rs| && Exact(size, n, rs, k, rs[k].start)
    requires Increasing(rs) && AllInside(size, rs)
    requires d in rs && d != rs[k] && Contains(d, rs[k])
    ensures Contains(d, RangeOf(n.secs[Top(n)]))
  {
    assert Inside(size, rs[k]);
    if d == Range(0, size) {
      OpenHoldsTop(n, rs[k].start, 0);
    } else {
      HasComeBefore(rs, k, d);
      assert d in RangesOf(n.secs);
      var i :| 0 <= i < |n.secs| - 1 && RangesOf(n.secs)[i] == d;
      OpenHoldsTop(n, rs[k].start, i + 1);
    }
  }

  lemma HasComeBefore(rs: seq<Range>, k: nat, d: Range)
    requires k < |rs| && Increasing(rs) && d in rs && d != rs[k] && Contains(d, rs[k])
    ensures d in rs[..k]
  {
    var j :| 0 <= j < |rs| && rs[j] == d;
    assert j < k;
    assert rs[..k][j] == d;
  }

  lemma PushExact(size: nat, n: Nest, rs: seq<Range>, k: nat)
    requires k < |rs| && Exact(size, n, rs, k, rs[k].start)
    requires Increasing(rs) && Laminar(rs) && AllInside(size, rs)
    requires |n.stack| > 1 ==> rs[k].start < n.secs[Top(n)].end
    ensures Exact(size, Push(n, rs[k]), rs, k + 1, rs[k].start)
  {
    var r, t, m, id := rs[k], Top(n), Push(n, rs[k]), |n.secs|;
    assert Inside(size, r);
    TopHolds(size, n, rs, k);
    PushSound(n, r);
    assert rs[..k + 1][..k] == rs[..k];
    if m != n {
      PushedRanges(n, r);
      forall d | d in rs && d != r && Contains(d, r) ensures Contains(d, RangeOf(n.secs[t])) {
        TopIsTightest(size, n, rs, k, d);
      }
      PushTight(n, r, rs);
    }
  }

  /** A range that fits the innermost open section becomes a section as it is. */
  lemma PushedRanges(n: Nest, r: Range)
    requires Ready(n) && Contains(RangeOf(n.secs[Top(n)]), r) && RangeOf(n.secs[Top(n)]) != r
    ensures RangesOf(Push(n, r).secs) == RangesOf(n.secs) + [r]
    ensures RangeOf(Push(n, r).secs[0]) == RangeOf(n.secs[0])
  {
  }

  lemma PushTight(n: Nest, r: Range, all: seq<Range>)
    requires Ready(n) && Tree(n.secs) && Tree(Push(n, r).secs) && AllTight(n.secs, all)
    requires var p := RangeOf(n.secs[Top(n)]);
      Contains(p, r) && p != r && forall d | d in all && d != r && Contains(d, r) :: Contains(d, p)
    ensures AllTight(Push(n, r).secs, all)
  {
    var m, id := Push(n, r), |n.secs|;
    assert m.secs[id].parent == Top(n) && RangeOf(m.secs[id]) == r;
    assert forall i | 0 <= i < id :: m.secs[i] == n.secs[i].(kids := m.secs[i].kids);
    forall i | 0 < i < |m.secs| ensures TightAt(m.secs, i, all) {
      if i < id { assert TightAt(n.secs, i, all) && Placed(n.secs, i); }
    }
  }

  lemma {:induction false} RunExact(size: nat, rs: seq<Range>, k: nat, at: int)
    requires k <= |rs| && Increasing(rs) && Laminar(rs) && AllInside(size, rs)
    requires at >= 0 && (k > 0 ==> at >= rs[k - 1].start)
    ensures Exact(size, Run(size, rs[..k]), rs, k, at)
    decreases k
  {
    if k == 0 {
      BeginSound(size, at);
      assert rs[..0] == [] && RangesOf(Begin(size).secs) == [];
    } else {
      var r := rs[k - 1];
      assert Inside(size, r);
      assert k > 1 ==> Precedes(rs[k - 2], r);
      RunExact(size, rs, k - 1, r.start);
      RunOneMore(size, rs, k - 1);
      var n := Run(size, rs[..k - 1]);
      PopSound(n, r.start);
      PushExact(size, Pop(n, r.start), rs, k - 1);
      assert ClosedBy(Run(size, rs[..k]), at) && StartedBy(Run(size, rs[..k]), at);
    }
  }

  /** When the declarations nest or stay apart, nothing is cut: the sections are the distinct declared ranges other
      than the whole file, in order, each under the smallest declared range that strictly contains it, or the file. */
  lemma LaminarIsExact(size: nat, ranges: seq<Range>)
    requires AllInside(size, ranges) && Laminar(ranges)
    ensures var secs := Run(size, Declared(ranges)).secs;
      && Tree(secs) && RangeOf(secs[0]) == Range(0, size)
      && RangesOf(secs) == Without(Declared(ranges), Range(0, size))
      && AllTight(secs, ranges)
  {
    var rs := Declared(ranges);
    DeclaredOrdered(ranges);
    if rs != [] { assert Inside(size, rs[|rs| - 1]); }
    RunExact(size, rs, |rs|, if rs == [] then 0 else rs[|rs| - 1].start);
    assert rs[..|rs|] == rs;
    var secs := Run(size, rs).secs;
    forall i | 0 < i < |secs| ensures TightAt(secs, i, ranges) { assert TightAt(secs, i, rs) && Placed(secs, i); }
  }

  /** The order and the repetition of the captures do not matter. */
  lemma NestingForgetsOrder(size: nat, a: seq<Range>, b: seq<Range>)
    requires forall r :: r in a <==> r in b
    ensures Run(size, Declared(a)) == Run(size, Declared(b))
  {
    DeclaredOrdered(a);
    DeclaredOrdered(b);
    SameRanges(Declared(a), Declared(b));
  }

  lemma {:induction false} SameRanges(a: seq<Range>, b: seq<Range>)
    requires Increasing(a) && Increasing(b) && forall r :: r in a <==> r in b
    ensures a == b
  {
    assert b != [] ==> b[0] in a;
    if a != [] {
      assert a[0] in b;
      SameFirst(a, b);
      forall r ensures r in a[1..] <==> r in b[1..] {
        assert r in a[1..] <==> r in a && r != a[0] by { NotFirst(a, r); }
        assert r in b[1..] <==> r in b && r != b[0] by { NotFirst(b, r); }
      }
      SameRanges(a[1..], b[1..]);
      assert a == [a[0]] + a[1..] && b == [b[0]] + b[1..];
    }
  }

  lemma SameFirst(a: seq<Range>, b: seq<Range>)
    requires Increasing(a) && Increasing(b) && a != [] && b != [] && a[0] in b && b[0] in a
    ensures a[0] == b[0]
  {
    var i :| 0 <= i < |b| && b[i] == a[0];
    var j :| 0 <= j < |a| && a[j] == b[0];
    assert i == 0 || Precedes(b[0], b[i]);
    assert j == 0 || Precedes(a[0], a[j]);
  }

  lemma NotFirst(a: seq<Range>, r: Range)
    requires Increasing(a) && a != []
    ensures r in a[1..] <==> r in a && r != a[0]
  {
    if r in a[1..] {
      var i :| 0 <= i < |a[1..]| && a[1..][i] == r;
      assert a[i + 1] == r && a[0] != a[i + 1];
    }
    if r in a && r != a[0] {
      var i :| 0 <= i < |a| && a[i] == r;
      assert a[1..][i - 1] == r;
    }
  }
}
