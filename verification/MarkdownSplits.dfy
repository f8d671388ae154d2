/** markdown/parser.go, splitAfter and the heading branch of the walk: where a section opens, what still grows, and how
    text without headings is cut into sections. */
module MarkdownSplits {
  import opened Wrappers
  import opened SectionLists
  import opened MarkdownWalk

  // ---- only the branch of the current section grows ----

  predicate OnBranch(w: Walk, j: nat)
    requires Safe(w)
  {
    j in w.secs[w.current].branch
  }

  lemma {:induction false} RaiseOnBranch(w: Walk, i: nat, end: nat, j: nat)
    requires Sound(w) && i < |w.secs| && j < |w.secs| && j !in w.secs[i].branch
    ensures Raise(w.secs, i, end)[j] == w.secs[j]
    decreases i
  {
    RaiseBelow(w, w.secs, i, end, j);
  }

  lemma {:induction false} RaiseBelow(w: Walk, secs: seq<Sec>, i: nat, end: nat, j: nat)
    requires Sound(w) && Ordered(secs) && |secs| == |w.secs| && i < |secs| && j < |secs| && j !in w.secs[i].branch
    requires forall k | 0 <= k < |secs| :: secs[k].parent == w.secs[k].parent
    ensures Raise(secs, i, end)[j] == secs[j]
    decreases i
  {
    OwnBranch(w, i);
    var raised := secs[i := secs[i].(end := if end > secs[i].end then end else secs[i].end)];
    assert j != i;
    if secs[i].parent >= 0 {
      RaiseBelow(w, raised, secs[i].parent, end, j);
    }
  }

  /** The section a heading hangs under: on the branch, of a lower level, and nothing below it on the branch is. */
  lemma {:induction false} ClosestIsClosest(w: Walk, from: nat, level: nat)
    requires Sound(w) && from < |w.secs| && level > 0
    ensures var p := ClosestAncestor(w.secs, from, level);
      p >= 0 && p in w.secs[from].branch && w.secs[p].level < level
      && forall k | k in w.secs[from].branch && k > p :: k < |w.secs| && w.secs[k].level >= level
    decreases from
  {
    OwnBranch(w, from);
    SomeAncestor(w, from, level);
    assert WellPlaced(w.secs, from);
    if w.secs[from].level < level {
      forall k | k in w.secs[from].branch && k > from ensures false { BranchPrefix(w, from, k); }
    } else {
      ClosestIsClosest(w, w.secs[from].parent, level);
    }
  }

  /** Under a section of the branch, a new one leaves what is off the branch as it is, and off it. */
  lemma AttachOnBranch(w: Walk, level: nat, parent: nat, start: int, end: nat, j: nat)
    requires Sound(w) && parent < |w.secs| && parent in w.secs[w.current].branch && j < |w.secs| && !OnBranch(w, j)
    ensures var v := Attach(w, level, parent, start, end);
      v.secs[j] == w.secs[j] && j !in v.secs[v.current].branch
  {
    BranchPrefix(w, w.current, parent);
  }

  lemma SplitOnBranch(src: Source, w: Walk, end: nat, j: nat)
    requires Sound(w) && j < |w.secs| && !OnBranch(w, j) && SplitAfter(src, w, end).Some?
    ensures var v := SplitAfter(src, w, end).value;
      j < |v.secs| && v.secs[j] == w.secs[j] && j !in v.secs[v.current].branch
  {
    hide WordCount;
    OwnBranch(w, w.current);
    var s := w.secs[w.current];
    if w.split {
      OwnBranch(w, s.parent);
      AttachOnBranch(w, s.level, s.parent, s.end, end, j);
    } else {
      AttachOnBranch(w, s.level + 1, w.current, s.end, end, j);
    }
  }

  lemma TextOnBranch(src: Source, w: Walk, end: nat, j: nat)
    requires Sound(w) && j < |w.secs| && !OnBranch(w, j) && EnterText(src, w, end).Some?
    ensures var v := EnterText(src, w, end).value;
      j < |v.secs| && v.secs[j] == w.secs[j] && j !in v.secs[v.current].branch
  {
    if end > w.secs[w.current].end {
      RaiseOnBranch(w, w.current, end, j);
      RaiseSound(w, end);
      hide SplitAfter;
      SplitOnBranch(src, w.(secs := Raise(w.secs, w.current, end)), end, j);
    }
  }

  lemma OpenedOnBranch(w: Walk, level: nat, j: nat)
    requires Sound(w) && level > 0 && j < |w.secs| && !OnBranch(w, j)
    ensures var o := OpenHeading(w, level); Sound(o) && j < |o.secs| && !OnBranch(o, j) && o.secs[j] == w.secs[j]
  {
    OpenSound(w, level);
    ClosestIsClosest(w, w.current, level);
    UnsplitSound(w);
    AttachOnBranch(w.(split := false), level, ClosestAncestor(w.secs, w.current, level), 0, 0, j);
    hide Sound, ClosestAncestor;
  }

  lemma HeadingOnBranch(src: Source, w: Walk, level: nat, lines: Option<Lines>, j: nat)
    requires Sound(w) && level > 0 && j < |w.secs| && !OnBranch(w, j) && EnterHeading(src, w, level, lines).Some?
    ensures var v := EnterHeading(src, w, level, lines).value;
      j < |v.secs| && v.secs[j] == w.secs[j] && j !in v.secs[v.current].branch
  {
    SoundSafe(w);
    OpenedOnBranch(w, level, j);
    hide CloseHeading, OpenHeading, Sound;
    if lines.Some? {
      CloseOnBranch(src, OpenHeading(w, level), lines.value.first - (level + 1), lines.value.last, j);
    }
  }

  lemma PlacedSound(v: Walk, start: int)
    requires Sound(v)
    ensures Sound(v.(secs := v.secs[v.current := v.secs[v.current].(start := start)]))
  {
    hide WellPlaced, ChildrenOf;
    SoundNested(v);
    RangesSound(v, v.secs[v.current := v.secs[v.current].(start := start)]);
  }

  lemma CloseOnBranch(src: Source, v: Walk, start: int, last: nat, j: nat)
    requires Sound(v) && j < |v.secs| && !OnBranch(v, j) && CloseHeading(src, v, start, last).Some?
    ensures var u := CloseHeading(src, v, start, last).value;
      j < |u.secs| && u.secs[j] == v.secs[j] && j !in u.secs[u.current].branch
  {
    OwnBranch(v, v.current);
    PlacedSound(v, start);
    var placed := v.(secs := v.secs[v.current := v.secs[v.current].(start := start)]);
    RaiseOnBranch(placed, v.current, last, j);
    RaiseSound(placed, last);
    hide SplitAfter;
    SplitOnBranch(src, v.(secs := Raise(placed.secs, v.current, last)), last, j);
  }

  lemma EnterOnBranch(src: Source, w: Walk, e: Event, j: nat)
    requires Sound(w) && (e.Heading? ==> e.level > 0) && j < |w.secs| && !OnBranch(w, j) && Enter(src, w, e).Some?
    ensures var v := Enter(src, w, e).value;
      j < |v.secs| && v.secs[j] == w.secs[j] && j !in v.secs[v.current].branch
  {
    hide EnterHeading, EnterText;
    if e.Heading? {
      HeadingOnBranch(src, w, e.level, e.lines, j);
    } else if TextEnd(e).Some? {
      TextOnBranch(src, w, TextEnd(e).value, j);
    }
  }

  /** A section that is not on the way from the root to the current one is finished: whatever nodes follow, its range,
      its level, its place and its children stay as they are. */
  lemma {:induction false} OffBranchIsFinal(src: Source, es: seq<Event>, more: seq<Event>, j: nat)
    requires Proper(es + more) && Proper(es) && WalkAll(src, es).Some? && WalkAll(src, es + more).Some?
    requires j < |WalkAll(src, es).value.secs| && !OnBranch(WalkAll(src, es).value, j)
    ensures var w, v := WalkAll(src, es).value, WalkAll(src, es + more).value;
      j < |v.secs| && v.secs[j] == w.secs[j] && !OnBranch(v, j)
    decreases |more|
  {
    if more == [] {
      assert es + more == es;
    } else {
      var init, e := more[..|more| - 1], more[|more| - 1];
      assert (es + more)[..|es + more| - 1] == es + init && (es + more)[|es + more| - 1] == e;
      assert e in es + more;
      OffBranchIsFinal(src, es, init, j);
      EnterOnBranch(src, WalkAll(src, es + init).value, e, j);
    }
  }

  // ---- text between two headings ----

  /** Where the next section opened by a split goes: under the current one, or beside it once there has been a split. */
  function NextParent(w: Walk): int
    requires Safe(w)
  {
    if w.split then w.secs[w.current].parent else w.current
  }

  function NextLevel(w: Walk): nat
    requires Safe(w)
  {
    if w.split then w.secs[w.current].level else w.secs[w.current].level + 1
  }

  /** The section holds as many words as a section may. */
  predicate Full(src: Source, s: Sec) {
    var start, end := if s.start < 0 then 0 else s.start, if s.end < src.size then s.end else src.size;
    start <= end && src.words(start, end) >= src.budget
  }

  /** The sections from n on share one parent and level, each ends, full, where the next one starts, and the last of
      them is the current one. */
  predicate InARow(src: Source, w: Walk, n: nat, parent: int, level: nat)
    requires Safe(w)
  {
    && n <= |w.secs|
    && (forall j | n <= j < |w.secs| :: w.secs[j].parent == parent && w.secs[j].level == level)
    && (forall j | n <= j < |w.secs| - 1 :: w.secs[j].end == w.secs[j + 1].start && Full(src, w.secs[j]))
    && (n < |w.secs| ==> w.split && w.current == |w.secs| - 1)
  }

  predicate NoHeading(es: seq<Event>) { forall e | e in es :: !e.Heading? }

  /** A section followed by one beside it is off the branch. */
  lemma LaterOffBranch(src: Source, w: Walk, n: nat, parent: int, level: nat, j: nat)
    requires Sound(w) && InARow(src, w, n, parent, level) && n <= j < |w.secs| - 1
    ensures !OnBranch(w, j)
  {
    OwnBranch(w, w.current);
    assert w.secs[n].parent == w.secs[w.current].parent == parent < n;
    if parent >= 0 && j in w.secs[parent].branch { BranchPrefix(w, parent, j); }
    assert WellPlaced(w.secs, w.current);
  }

  lemma RaiseInARow(src: Source, w: Walk, end: nat, n: nat, parent: int, level: nat)
    requires Sound(w) && InARow(src, w, n, parent, level)
    ensures InARow(src, w.(secs := Raise(w.secs, w.current, end)), n, parent, level)
  {
    assert Safe(w);
    hide WordCount, Sound;
    var r := Raise(w.secs, w.current, end);
    forall j | n <= j < |w.secs| - 1 ensures r[j] == w.secs[j] {
      LaterOffBranch(src, w, n, parent, level, j);
      RaiseOnBranch(w, w.current, end, j);
    }
  }

  lemma SplitInARow(src: Source, w: Walk, end: nat, n: nat, parent: int, level: nat)
    requires Safe(w) && InARow(src, w, n, parent, level) && SplitAfter(src, w, end).Some?
    requires NextParent(w) == parent && NextLevel(w) == level && parent < n
    ensures var v := SplitAfter(src, w, end).value;
      Safe(v) && InARow(src, v, n, parent, level) && NextParent(v) == parent && NextLevel(v) == level
  {
  }

  lemma TextInARow(src: Source, w: Walk, end: nat, n: nat, parent: int, level: nat)
    requires Sound(w) && InARow(src, w, n, parent, level) && EnterText(src, w, end).Some?
    requires NextParent(w) == parent && NextLevel(w) == level && parent < n
    ensures var v := EnterText(src, w, end).value;
      Safe(v) && InARow(src, v, n, parent, level) && NextParent(v) == parent && NextLevel(v) == level
  {
    if end > w.secs[w.current].end {
      RaiseInARow(src, w, end, n, parent, level);
      hide SplitAfter, InARow;
      SplitInARow(src, w.(secs := Raise(w.secs, w.current, end)), end, n, parent, level);
    }
  }

  lemma {:induction false} TextRunInARow(src: Source, es: seq<Event>, text: seq<Event>, n: nat, parent: int, level: nat)
    requires Proper(es + text) && Proper(es) && NoHeading(text)
    requires WalkAll(src, es).Some? && WalkAll(src, es + text).Some?
    requires var w := WalkAll(src, es).value;
      InARow(src, w, n, parent, level) && NextParent(w) == parent && NextLevel(w) == level && parent < n
    ensures var v := WalkAll(src, es + text).value;
      InARow(src, v, n, parent, level) && NextParent(v) == parent && NextLevel(v) == level
    decreases |text|
  {
    if text == [] {
      assert es + text == es;
    } else {
      var init, e := text[..|text| - 1], text[|text| - 1];
      assert (es + text)[..|es + text| - 1] == es + init && (es + text)[|es + text| - 1] == e;
      assert e in text;
      TextRunInARow(src, es, init, n, parent, level);
      hide EnterText, InARow;
      if TextEnd(e).Some? { TextInARow(src, WalkAll(src, es + init).value, TextEnd(e).value, n, parent, level); }
    }
  }

  lemma {:induction false} CurrentIsLast(src: Source, es: seq<Event>)
    requires Proper(es) && WalkAll(src, es).Some?
    ensures WalkAll(src, es).value.current == |WalkAll(src, es).value.secs| - 1
  {
    if es != [] {
      CurrentIsLast(src, es[..|es| - 1]);
      hide Sound;
      StepIsLast(src, WalkAll(src, es[..|es| - 1]).value, es[|es| - 1]);
    }
  }

  lemma StepIsLast(src: Source, w: Walk, e: Event)
    requires Safe(w) && w.current == |w.secs| - 1 && Enter(src, w, e).Some?
    ensures Enter(src, w, e).value.current == |Enter(src, w, e).value.secs| - 1
  {
    hide Raise, ClosestAncestor, WordCount;
  }

  /** Text without headings is cut in a row: from the first split on, its sections share one parent and one level, and
      each ends, holding as many words as a section may, where the next one starts. The first is opened under the
      section the text started in, unless that was opened by a split itself: then it is one of the row. */
  lemma TextIsCutInARow(src: Source, es: seq<Event>, text: seq<Event>)
    requires Proper(es + text) && Proper(es) && NoHeading(text)
    requires WalkAll(src, es).Some? && WalkAll(src, es + text).Some?
    ensures var w, v := WalkAll(src, es).value, WalkAll(src, es + text).value;
      if w.split then InARow(src, v, w.current, w.secs[w.current].parent, w.secs[w.current].level)
      else InARow(src, v, |w.secs|, w.current, w.secs[w.current].level + 1)
  {
    hide InARow, WalkAll;
    var w := WalkAll(src, es).value;
    assert Safe(w) && Safe(WalkAll(src, es + text).value);
    hide Sound;
    CurrentIsLast(src, es);
    StartsARow(src, w);
    TextRunInARow(src, es, text, if w.split then w.current else |w.secs|, NextParent(w), NextLevel(w));
  }

  lemma StartsARow(src: Source, w: Walk)
    requires Safe(w) && w.current == |w.secs| - 1
    ensures InARow(src, w, if w.split then w.current else |w.secs|, NextParent(w), NextLevel(w))
    ensures NextParent(w) < if w.split then w.current else |w.secs|
  {
  }

  // ---- room ----

  /** Between two nodes the current section has room for more: it was split as soon as it had not. */
  lemma {:induction false} CurrentHasRoom(src: Source, es: seq<Event>)
    requires Proper(es) && WalkAll(src, es).Some? && src.budget > 0 && forall a: nat :: src.words(a, a) == 0
    ensures var w := WalkAll(src, es).value; !Full(src, w.secs[w.current])
  {
    if es != [] {
      CurrentHasRoom(src, es[..|es| - 1]);
      hide Sound;
      StepHasRoom(src, WalkAll(src, es[..|es| - 1]).value, es[|es| - 1]);
    }
  }

  lemma StepHasRoom(src: Source, w: Walk, e: Event)
    requires Safe(w) && Enter(src, w, e).Some? && src.budget > 0 && (forall a: nat :: src.words(a, a) == 0)
    requires !Full(src, w.secs[w.current])
    ensures var v := Enter(src, w, e).value; v.current < |v.secs| && !Full(src, v.secs[v.current])
  {
    hide Raise, ClosestAncestor, SplitAfter, Full;
    if e.Heading? {
      var o := OpenHeading(w, e.level);
      assert o.secs[o.current].end == 0;
      if e.lines.Some? {
        var placed := o.secs[o.current := o.secs[o.current].(start := e.lines.value.first - (e.level + 1))];
        RaiseReaches(placed, o.current, e.lines.value.last);
        SplitHasRoom(src, o.(secs := Raise(placed, o.current, e.lines.value.last)), e.lines.value.last);
      } else {
        EmptyHasRoom(src, o.secs[o.current]);
      }
    } else if TextEnd(e).Some? && TextEnd(e).value > w.secs[w.current].end {
      RaiseReaches(w.secs, w.current, TextEnd(e).value);
      SplitHasRoom(src, w.(secs := Raise(w.secs, w.current, TextEnd(e).value)), TextEnd(e).value);
    }
  }

  lemma EmptyHasRoom(src: Source, s: Sec)
    requires s.start == s.end && src.budget > 0 && (forall a: nat :: src.words(a, a) == 0)
    ensures !Full(src, s)
  {
  }

  lemma SplitHasRoom(src: Source, w: Walk, end: nat)
    requires Safe(w) && w.secs[w.current].end == end && src.budget > 0 && (forall a: nat :: src.words(a, a) == 0)
    ensures SplitAfter(src, w, end).Some? ==>
      var v := SplitAfter(src, w, end).value; v.current < |v.secs| && !Full(src, v.secs[v.current])
  {
    if SplitAfter(src, w, end).Some? && Full(src, w.secs[w.current]) {
      var v := SplitAfter(src, w, end).value;
      EmptyHasRoom(src, v.secs[v.current]);
    }
  }

  /** A heading opens a section of its level that starts at its marks, under the closest section on the branch of a
      lower level. It covers its line, and is not part of a row of splits. */
  lemma HeadingOpens(src: Source, w: Walk, level: nat, lines: Lines)
    requires Sound(w) && level > 0 && Enter(src, w, Heading(level, Some(lines))).Some?
    ensures var v, n := Enter(src, w, Heading(level, Some(lines))).value, |w.secs|;
      && n < |v.secs| <= n + 1 + 1
      && var s := v.secs[n];
         && s.level == level && s.start == lines.first - (level + 1) && s.end >= lines.last
         && s.parent >= 0 && s.parent in w.secs[w.current].branch && w.secs[s.parent].level < level
         && (forall k | k in w.secs[w.current].branch && k > s.parent :: k < n && w.secs[k].level >= level)
         && (|v.secs| == n + 1 ==> v.current == n && !v.split)
         && (|v.secs| == n + 2 ==> v.current == n + 1 && v.split && v.secs[n + 1].parent == n)
  {
    ClosestIsClosest(w, w.current, level);
    OpenSound(w, level);
    var o := OpenHeading(w, level);
    var placed := o.secs[o.current := o.secs[o.current].(start := lines.first - (level + 1))];
    RaiseReaches(placed, o.current, lines.last);
    hide Sound, Raise, ClosestAncestor, WordCount;
  }

  lemma RaiseReaches(secs: seq<Sec>, i: nat, end: nat)
    requires Ordered(secs) && i < |secs|
    ensures Raise(secs, i, end)[i].end == if end > secs[i].end then end else secs[i].end
  {
    var raised := secs[i := secs[i].(end := if end > secs[i].end then end else secs[i].end)];
    if secs[i].parent >= 0 { RaiseAbove(raised, secs[i].parent, end, i); }
  }

  /** Later sections are not raised. */
  lemma {:induction false} RaiseAbove(secs: seq<Sec>, i: nat, end: nat, j: nat)
    requires Ordered(secs) && i < j < |secs|
    ensures Raise(secs, i, end)[j] == secs[j]
    decreases i
  {
    var raised := secs[i := secs[i].(end := if end > secs[i].end then end else secs[i].end)];
    if secs[i].parent >= 0 { RaiseAbove(raised, secs[i].parent, end, j); }
  }

  // ---- how far the tree reaches, and when there is none ----

  /** Where a node ends; a fence closes four bytes after the block it encloses. */
  function EndOf(e: Event): nat {
    match e
    case Heading(_, Some(l)) => l.last
    case Block(Some(l), fenced) => if fenced then l.last + 4 else l.last
    case TextNode(stop) => stop
    case _ => 0
  }

  lemma {:induction false} RaiseRoot(secs: seq<Sec>, i: nat, end: nat)
    requires Ordered(secs) && i < |secs| && forall j | 0 < j < |secs| :: secs[j].parent >= 0
    ensures Raise(secs, i, end)[0].end == if end > secs[0].end then end else secs[0].end
    decreases i
  {
    var raised := secs[i := secs[i].(end := if end > secs[i].end then end else secs[i].end)];
    if i > 0 { RaiseRoot(raised, secs[i].parent, end); }
  }

  lemma OneRoot(w: Walk)
    requires Sound(w)
    ensures forall j | 0 < j < |w.secs| :: w.secs[j].parent >= 0
    ensures w.secs[w.current].end <= w.secs[0].end
  {
    forall j | 0 < j < |w.secs| ensures w.secs[j].parent >= 0 { assert WellPlaced(w.secs, j); }
    BranchIsPath(w.secs, w.current);
  }

  lemma SplitKeepsRoot(src: Source, w: Walk, end: nat)
    requires Safe(w) && SplitAfter(src, w, end).Some?
    ensures SplitAfter(src, w, end).value.secs[0].end == w.secs[0].end
  {
  }

  function Later(a: nat, b: nat): nat { if a < b then b else a }

  lemma TextReaches(src: Source, w: Walk, end: nat)
    requires Sound(w) && EnterText(src, w, end).Some?
    ensures EnterText(src, w, end).value.secs != []
    ensures EnterText(src, w, end).value.secs[0].end == Later(w.secs[0].end, end)
  {
    OneRoot(w);
    RaiseRoot(w.secs, w.current, end);
    var raised := w.(secs := Raise(w.secs, w.current, end));
    assert Safe(raised);
    hide Sound, Raise, SplitAfter;
    if end > w.secs[w.current].end { SplitKeepsRoot(src, raised, end); }
  }

  lemma HeadingReaches(src: Source, w: Walk, level: nat, lines: Option<Lines>)
    requires Sound(w) && level > 0 && EnterHeading(src, w, level, lines).Some?
    ensures EnterHeading(src, w, level, lines).value.secs != []
    ensures EnterHeading(src, w, level, lines).value.secs[0].end
      == Later(w.secs[0].end, if lines.None? then 0 else lines.value.last)
  {
    OpenSound(w, level);
    var o := OpenHeading(w, level);
    OneRoot(o);
    assert Safe(w) && Safe(o) && o.secs[0].end == w.secs[0].end;
    hide Sound, OpenHeading;
    if lines.Some? {
      var placed := o.secs[o.current := o.secs[o.current].(start := lines.value.first - (level + 1))];
      RaiseRoot(placed, o.current, lines.value.last);
      hide Raise, SplitAfter;
      SplitKeepsRoot(src, o.(secs := Raise(placed, o.current, lines.value.last)), lines.value.last);
    }
  }

  lemma StepReaches(src: Source, w: Walk, e: Event)
    requires Sound(w) && (e.Heading? ==> e.level > 0) && Enter(src, w, e).Some?
    ensures Enter(src, w, e).value.secs != []
    ensures Enter(src, w, e).value.secs[0].end == Later(w.secs[0].end, EndOf(e))
  {
    hide EnterHeading, EnterText;
    if e.Heading? {
      HeadingReaches(src, w, e.level, e.lines);
    } else if TextEnd(e).Some? {
      TextReaches(src, w, TextEnd(e).value);
    }
  }

  /** end is where the last of the nodes ends. */
  ghost predicate IsLast(es: seq<Event>, end: nat) {
    (forall e | e in es :: EndOf(e) <= end) && (end == 0 || exists e | e in es :: EndOf(e) == end)
  }

  lemma LastOfMore(es: seq<Event>, end: nat, e: Event)
    requires IsLast(es, end)
    ensures IsLast(es + [e], Later(end, EndOf(e)))
  {
    assert e in es + [e];
    if f :| f in es && EndOf(f) == end { assert f in es + [e]; }
  }

  lemma SoundSafe(w: Walk)
    requires Sound(w)
    ensures Safe(w) && w.secs != []
  {
  }

  /** The document reaches exactly as far as the last byte at which one of its nodes ends. */
  lemma {:induction false} RootReaches(src: Source, es: seq<Event>)
    requires Proper(es) && WalkAll(src, es).Some?
    ensures WalkAll(src, es).value.secs != [] && IsLast(es, WalkAll(src, es).value.secs[0].end)
  {
    hide Sound, Enter, EndOf, IsLast;
    SoundSafe(WalkAll(src, es).value);
    if es == [] {
      NothingIsLast();
    } else {
      var n := |es| - 1;
      assert es == es[..n] + [es[n]];
      var w := WalkAll(src, es[..n]).value;
      RootReaches(src, es[..n]);
      StepReaches(src, w, es[n]);
      LastOfMore(es[..n], w.secs[0].end, es[n]);
    }
  }

  lemma NothingIsLast()
    ensures IsLast([], 0)
  {
  }

  /** A heading whose marks stand behind its last line, or behind the document. */
  predicate Misplaced(src: Source, e: Event) {
    e.Heading? && e.lines.Some?
    && var start, last := e.lines.value.first - (e.level + 1), e.lines.value.last;
    (if start < 0 then 0 else start) > (if last < src.size then last else src.size)
  }

  lemma SplitFails(src: Source, w: Walk, end: nat)
    requires Safe(w) && w.secs[w.current].end == end
    ensures var s := w.secs[w.current];
      SplitAfter(src, w, end).Some? <==>
        (if s.start < 0 then 0 else s.start) <= if end < src.size then end else src.size
    ensures SplitAfter(src, w, end).Some? && w.secs[w.current].start <= end ==>
      var v := SplitAfter(src, w, end).value;
      v.current < |v.secs| && v.secs[v.current].start <= v.secs[v.current].end
  {
  }

  lemma StepFails(src: Source, w: Walk, e: Event)
    requires Safe(w) && w.secs[w.current].start <= w.secs[w.current].end && (!e.Heading? ==> EndOf(e) <= src.size)
    ensures Enter(src, w, e).None? <==> Misplaced(src, e)
    ensures Enter(src, w, e).Some? ==>
      var v := Enter(src, w, e).value; v.current < |v.secs| && v.secs[v.current].start <= v.secs[v.current].end
  {
    hide Raise, ClosestAncestor, SplitAfter;
    if e.Heading? {
      var o := OpenHeading(w, e.level);
      assert o.secs[o.current].end == 0 == o.secs[o.current].start;
      if e.lines.Some? {
        var placed := o.secs[o.current := o.secs[o.current].(start := e.lines.value.first - (e.level + 1))];
        RaiseReaches(placed, o.current, e.lines.value.last);
        SplitFails(src, o.(secs := Raise(placed, o.current, e.lines.value.last)), e.lines.value.last);
      }
    } else if TextEnd(e).Some? && TextEnd(e).value > w.secs[w.current].end {
      RaiseReaches(w.secs, w.current, TextEnd(e).value);
      SplitFails(src, w.(secs := Raise(w.secs, w.current, TextEnd(e).value)), TextEnd(e).value);
    }
  }

  /** When text ends within the document, the parse fails exactly when a heading's marks stand behind the end of its
      lines or of the document. */
  lemma {:induction false} WalkFailsExactly(src: Source, es: seq<Event>)
    requires Proper(es) && forall e | e in es && !e.Heading? :: EndOf(e) <= src.size
    ensures WalkAll(src, es).None? <==> exists e | e in es :: Misplaced(src, e)
    ensures WalkAll(src, es).Some? ==>
      var s := WalkAll(src, es).value.secs[WalkAll(src, es).value.current]; s.start <= s.end
  {
    hide Sound, Enter, Misplaced, EndOf;
    if es != [] {
      var n := |es| - 1;
      assert es == es[..n] + [es[n]];
      WalkFailsExactly(src, es[..n]);
      if WalkAll(src, es[..n]).Some? {
        SoundSafe(WalkAll(src, es[..n]).value);
        StepFails(src, WalkAll(src, es[..n]).value, es[n]);
      }
    }
  }
}
