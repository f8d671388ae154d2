/** retrieval/lexical_rerank.go, proximityScore: the smallest window of token positions that holds every matched
    query term, found by two pointers over the merged occurrences. */
module Proximity {
  import opened Order

  datatype Occurrence = Occurrence(pos: int, slot: nat)

  predicate ByPosition(a: Occurrence, b: Occurrence) { a.pos <= b.pos }

  /** A token has one position and belongs to one query term. */
  predicate DistinctTokens(tp: seq<seq<int>>) {
    forall s, i, t, j | 0 <= s < |tp| && 0 <= i < |tp[s]| && 0 <= t < |tp| && 0 <= j < |tp[t]| ::
      tp[s][i] == tp[t][j] ==> s == t && i == j
  }

  /** The query terms the section holds. */
  function Matched(tp: seq<seq<int>>): set<nat> { set s: nat | s < |tp| && tp[s] != [] }

  /** The window from token a to token b holds the query term s. */
  predicate HoldsTerm(positions: seq<int>, a: int, b: int) { exists p | p in positions :: a <= p <= b }

  ghost predicate Holds(tp: seq<seq<int>>, a: int, b: int) { forall s | s in Matched(tp) :: HoldsTerm(tp[s], a, b) }

  /** Some window of best tokens holds every matched term, and no shorter one does. */
  ghost predicate Smallest(tp: seq<seq<int>>, best: int) {
    && best > 0 && (exists a, b :: b == a + best - 1 && Holds(tp, a, b))
    && forall a, b | a <= b && Holds(tp, a, b) :: best <= b - a + 1
  }

  // ---- merging the positions ----

  function Tagged(positions: seq<int>, slot: nat): (r: seq<Occurrence>)
    ensures |r| == |positions| && forall i | 0 <= i < |r| :: r[i] == Occurrence(positions[i], slot)
  {
    seq(|positions|, i requires 0 <= i < |positions| => Occurrence(positions[i], slot))
  }

  function Merged(tp: seq<seq<int>>): seq<Occurrence> {
    if tp == [] then [] else Merged(tp[..|tp| - 1]) + Tagged(tp[|tp| - 1], |tp| - 1)
  }

  method Merge(tp: seq<seq<int>>) returns (r: seq<Occurrence>)
    ensures r == Merged(tp)
  {
    r := [];
    assert tp[..0] == [];
    for s := 0 to |tp|
      invariant r == Merged(tp[..s])
    {
      ghost var before := r;
      assert tp[..s + 1][..s] == tp[..s];
      for i := 0 to |tp[s]|
        invariant r == before + Tagged(tp[s][..i], s)
      {
        r := r + [Occurrence(tp[s][i], s)];
        assert Tagged(tp[s][..i + 1], s) == Tagged(tp[s][..i], s) + [Occurrence(tp[s][i], s)];
      }
      assert tp[s][..|tp[s]|] == tp[s];
    }
    assert tp[..|tp|] == tp;
  }

  predicate Has(tp: seq<seq<int>>, o: Occurrence) { o.slot < |tp| && o.pos in tp[o.slot] }

  lemma {:induction false} MergedHas(tp: seq<seq<int>>, o: Occurrence)
    ensures o in Merged(tp) <==> Has(tp, o)
  {
    if tp != [] {
      var k := |tp| - 1;
      MergedHas(tp[..k], o);
      if o.slot == k && o.pos in tp[k] {
        var i :| 0 <= i < |tp[k]| && tp[k][i] == o.pos;
        assert Tagged(tp[k], k)[i] == o;
      }
    }
  }

  predicate PositionsDiffer(os: seq<Occurrence>) { forall i, j | 0 <= i < j < |os| :: os[i].pos != os[j].pos }

  lemma {:induction false} MergedDiffer(tp: seq<seq<int>>)
    requires DistinctTokens(tp)
    ensures PositionsDiffer(Merged(tp))
  {
    if tp != [] {
      var k := |tp| - 1;
      MergedDiffer(tp[..k]);
      var front, last := Merged(tp[..k]), Tagged(tp[k], k);
      forall i, j | 0 <= i < |front| && 0 <= j < |last| ensures front[i].pos != last[j].pos {
        MergedHas(tp[..k], front[i]);
        var s, p := front[i].slot, front[i].pos;
        var q :| 0 <= q < |tp[..k][s]| && tp[..k][s][q] == p;
        assert tp[s][q] == p;
      }
    }
  }

  lemma {:induction false} CountOne(os: seq<Occurrence>, x: Occurrence)
    requires PositionsDiffer(os)
    ensures multiset(os)[x] <= 1
  {
    if os != [] {
      CountOne(os[1..], x);
      assert os == [os[0]] + os[1..];
      if x == os[0] { assert x !in os[1..]; assert x !in multiset(os[1..]); }
    }
  }

  /** Sorted by position, the occurrences of distinct tokens are in strictly increasing positions. */
  lemma SortedIncreasing(tp: seq<seq<int>>)
    requires DistinctTokens(tp)
    ensures var os := Sort(ByPosition, Merged(tp));
      && (forall i, j | 0 <= i < j < |os| :: os[i].pos < os[j].pos)
      && forall o :: o in os <==> Has(tp, o)
  {
    var ms := Merged(tp);
    var os := Sort(ByPosition, ms);
    SortCorrect(ByPosition, ms);
    MergedDiffer(tp);
    forall o ensures o in os <==> Has(tp, o) {
      MergedHas(tp, o);
      assert o in multiset(os) <==> o in multiset(ms);
    }
    StrictlySorted(os, ms);
  }

  lemma StrictlySorted(os: seq<Occurrence>, ms: seq<Occurrence>)
    requires Sorted(ByPosition, os) && multiset(os) == multiset(ms) && PositionsDiffer(ms)
    ensures forall i, j | 0 <= i < j < |os| :: os[i].pos < os[j].pos
  {
    forall i, j | 0 <= i < j < |os| ensures os[i].pos < os[j].pos {
      assert ByPosition(os[i], os[j]);
      Twice(os, i, j);
      CountOne(ms, os[i]);
      assert os[i] in multiset(ms) && os[j] in multiset(ms);
      var x :| 0 <= x < |ms| && ms[x] == os[i];
      var y :| 0 <= y < |ms| && ms[y] == os[j];
      assert x < y || y < x;
    }
  }

  // ---- the two pointers ----

  function Slots(os: seq<Occurrence>): (r: seq<nat>)
    ensures |r| == |os| && forall i | 0 <= i < |os| :: r[i] == os[i].slot
  {
    seq(|os|, i requires 0 <= i < |os| => os[i].slot)
  }

  function Elements(s: seq<nat>): set<nat> { set x | x in s }

  /** The occurrences from l up to r hold every term. */
  predicate Full(ss: seq<nat>, l: nat, r: nat)
    requires l <= r <= |ss|
  {
    Elements(ss[l..r]) == Elements(ss)
  }

  predicate Increasing(os: seq<Occurrence>) { forall i, j | 0 <= i < j < |os| :: os[i].pos < os[j].pos }

  function Width(os: seq<Occurrence>, l: nat, r: nat): int
    requires l < |os| && r < |os|
  {
    os[r].pos - os[l].pos + 1
  }

  datatype Best = Unset | Best(width: int)

  /** No full window that starts before left is shorter than best. */
  ghost predicate BestBefore(os: seq<Occurrence>, left: nat, best: Best)
  {
    forall l, r | 0 <= l < left && l < r <= |os| && Full(Slots(os), l, r) ::
      best.Best? && best.width <= Width(os, l, r - 1)
  }

  ghost predicate Attained(os: seq<Occurrence>, best: Best) {
    best.Best? ==> exists l, r | 0 <= l < r <= |os| && Full(Slots(os), l, r) :: best.width == Width(os, l, r - 1)
  }

  ghost predicate Counts(counts: array<int>, ss: seq<nat>)
    reads counts
  {
    forall s | 0 <= s < counts.Length :: counts[s] == multiset(ss)[s]
  }

  lemma FullGrows(ss: seq<nat>, l: nat, k: nat, q: nat, r: nat)
    requires l <= k <= q <= r <= |ss|
    ensures Full(ss, k, q) ==> Full(ss, l, r)
  {
    forall x | x in ss[k..q] ensures x in ss[l..r] {
      var i :| 0 <= i < |ss[k..q]| && ss[k..q][i] == x;
      assert ss[l..r][k - l + i] == x;
    }
    assert forall x | x in ss[l..r] :: x in ss;
    assert Elements(ss[k..q]) <= Elements(ss[l..r]) <= Elements(ss);
  }

  lemma AddLast(ss: seq<nat>, l: nat, r: nat)
    requires l <= r < |ss|
    ensures multiset(ss[l..r + 1]) == multiset(ss[l..r]) + multiset{ss[r]}
    ensures Elements(ss[l..r + 1]) == Elements(ss[l..r]) + {ss[r]}
  {
    assert ss[l..r + 1] == ss[l..r] + [ss[r]];
  }

  lemma DropFirst(ss: seq<nat>, l: nat, r: nat)
    requires l < r <= |ss|
    ensures multiset(ss[l..r]) == multiset(ss[l + 1..r]) + multiset{ss[l]}
    ensures Elements(ss[l + 1..r]) ==
      if multiset(ss[l + 1..r])[ss[l]] == 0 then Elements(ss[l..r]) - {ss[l]} else Elements(ss[l..r])
  {
    assert ss[l..r] == [ss[l]] + ss[l + 1..r];
    assert ss[l] in ss[l + 1..r] <==> ss[l] in multiset(ss[l + 1..r]);
  }

  lemma FullByCount(ss: seq<nat>, l: nat, r: nat)
    requires l <= r <= |ss|
    ensures Full(ss, l, r) <==> |Elements(ss[l..r])| == |Elements(ss)|
  {
    assert Elements(ss[l..r]) <= Elements(ss);
    if |Elements(ss[l..r])| == |Elements(ss)| { SameSize(Elements(ss[l..r]), Elements(ss)); }
  }

  lemma {:induction false} SameSize(a: set<nat>, b: set<nat>)
    requires a <= b && |a| == |b|
    ensures a == b
  {
    assert |b - a| == |b| - |a|;
  }

  /** A full window that starts at left ends no earlier than right when what precedes right is not full. */
  lemma BestNext(os: seq<Occurrence>, left: nat, right: nat, best: Best)
    requires Increasing(os) && left <= right < |os| && BestBefore(os, left, best)
    requires !Full(Slots(os), left, right)
    requires best.Best? && best.width <= Width(os, left, right)
    ensures BestBefore(os, left + 1, best)
  {
    forall r | left < r <= right ensures !Full(Slots(os), left, r) { FullGrows(Slots(os), left, left, r, right); }
  }

  /** The window takes in its next occurrence, of the term slot. */
  method Take(counts: array<int>, slot: nat, was: int, ghost ss: seq<nat>, ghost l: nat, ghost r: nat)
    returns (covered: int)
    requires l <= r < |ss| && slot == ss[r] < counts.Length
    requires Counts(counts, ss[l..r]) && was == |Elements(ss[l..r])|
    modifies counts
    ensures Counts(counts, ss[l..r + 1]) && covered == |Elements(ss[l..r + 1])|
  {
    AddLast(ss, l, r);
    covered := was;
    if counts[slot] == 0 { covered := covered + 1; }
    counts[slot] := counts[slot] + 1;
  }

  /** The window lets go of its first occurrence, of the term slot. */
  method Drop(counts: array<int>, slot: nat, was: int, ghost ss: seq<nat>, ghost l: nat, ghost r: nat)
    returns (covered: int)
    requires l < r <= |ss| && slot == ss[l] < counts.Length
    requires Counts(counts, ss[l..r]) && was == |Elements(ss[l..r])|
    modifies counts
    ensures Counts(counts, ss[l + 1..r]) && covered == |Elements(ss[l + 1..r])|
  {
    DropFirst(ss, l, r);
    assert ss[l..r][0] == ss[l];
    covered := was;
    counts[slot] := counts[slot] - 1;
    if counts[slot] == 0 { covered := covered - 1; }
  }

  /** The loop over the merged occurrences. */
  method SmallestWindow(os: seq<Occurrence>, terms: nat, distinct: nat) returns (best: Best)
    requires Increasing(os) && (forall i | 0 <= i < |os| :: os[i].slot < terms)
    requires distinct == |Elements(Slots(os))| > 0
    ensures best.Best? && Attained(os, best) && BestBefore(os, |os|, best)
  {
    hide Full, Attained, BestBefore, Counts, Elements, Increasing;
    var counts := new int[terms](_ => 0);
    ghost var ss := Slots(os);
    var covered := 0;
    var left: nat := 0;
    best := Unset;
    Nothing(os, counts);
    for right := 0 to |os|
      invariant left <= right && covered < distinct && Tracks(counts, os, left, right, covered, best)
    {
      covered, left, best := Advance(counts, os, left, right, covered, best, distinct);
    }
    assert ss[left..|os|] == ss[left..];
    Conclude(os, left, best);
  }

  /** The occurrence right comes into the window, which is then measured as long as it is full. */
  method Advance(counts: array<int>, os: seq<Occurrence>, left0: nat, right: nat, covered0: int, best0: Best,
      distinct: nat)
    returns (covered: int, left: nat, best: Best)
    requires Increasing(os) && (forall i | 0 <= i < |os| :: os[i].slot < counts.Length)
    requires distinct == |Elements(Slots(os))| > 0 && left0 <= right < |os|
    requires Tracks(counts, os, left0, right, covered0, best0) && covered0 < distinct
    modifies counts
    ensures left <= right + 1 && Tracks(counts, os, left, right + 1, covered, best) && covered < distinct
  {
    hide Full, Attained, BestBefore, Counts, Elements, Increasing;
    FullByCount(Slots(os), left0, right);
    covered := Take(counts, os[right].slot, covered0, Slots(os), left0, right);
    covered, left, best := Tighten(counts, os, left0, right, covered, best0, distinct);
  }

  lemma Nothing(os: seq<Occurrence>, counts: array<int>)
    requires forall s | 0 <= s < counts.Length :: counts[s] == 0
    ensures Tracks(counts, os, 0, 0, 0, Unset)
  {
    assert Slots(os)[0..0] == [] && Elements([]) == {};
  }

  /** The window from left to right as the loop knows it. */
  ghost predicate Tracks(counts: array<int>, os: seq<Occurrence>, left: nat, right: nat, covered: int, best: Best)
    requires left <= right <= |os|
    reads counts
  {
    && Counts(counts, Slots(os)[left..right]) && covered == |Elements(Slots(os)[left..right])|
    && BestBefore(os, left, best) && Attained(os, best)
  }

  /** While the window ending at right is full, it is measured and its first occurrence dropped. */
  method Tighten(counts: array<int>, os: seq<Occurrence>, left0: nat, right: nat, covered0: int, best0: Best,
      distinct: nat)
    returns (covered: int, left: nat, best: Best)
    requires Increasing(os) && (forall i | 0 <= i < |os| :: os[i].slot < counts.Length)
    requires distinct == |Elements(Slots(os))| > 0 && left0 <= right < |os|
    requires Tracks(counts, os, left0, right + 1, covered0, best0) && !Full(Slots(os), left0, right)
    modifies counts
    ensures left <= right + 1 && Tracks(counts, os, left, right + 1, covered, best) && covered < distinct
  {
    hide Full, Attained, BestBefore, Counts, Elements, Increasing;
    covered, left, best := covered0, left0, best0;
    while covered == distinct
      invariant left0 <= left <= right + 1
      invariant Tracks(counts, os, left, right + 1, covered, best)
      decreases right + 1 - left
    {
      NotPastRight(Slots(os), left0, left, right);
      covered, best := TightenOnce(counts, os, left, right, covered, best);
      left := left + 1;
    }
    WindowBound(Slots(os), left, right + 1);
  }

  method TightenOnce(counts: array<int>, os: seq<Occurrence>, left: nat, right: nat, covered0: int, best0: Best)
    returns (covered: int, best: Best)
    requires Increasing(os) && (forall i | 0 <= i < |os| :: os[i].slot < counts.Length)
    requires left <= right < |os| && Tracks(counts, os, left, right + 1, covered0, best0)
    requires !Full(Slots(os), left, right) && Full(Slots(os), left, right + 1)
    modifies counts
    ensures Tracks(counts, os, left + 1, right + 1, covered, best)
  {
    hide Full, Elements, Counts;
    ghost var ss := Slots(os);
    var slot := os[left].slot;
    assert slot == ss[left];
    best := Measure(os, left, right, best0);
    covered := Drop(counts, slot, covered0, ss, left, right + 1);
  }

  lemma NotPastRight(ss: seq<nat>, from: nat, left: nat, right: nat)
    requires from <= left <= right + 1 && from <= right < |ss| && !Full(ss, from, right)
    requires |Elements(ss)| > 0 && |Elements(ss[left..right + 1])| == |Elements(ss)|
    ensures left <= right && !Full(ss, left, right) && Full(ss, left, right + 1)
  {
    assert Elements([]) == {};
    assert left <= right;
    FullByCount(ss, left, right + 1);
    FullGrows(ss, from, left, right, right);
  }

  method Measure(os: seq<Occurrence>, left: nat, right: nat, best0: Best) returns (best: Best)
    requires Increasing(os) && left <= right < |os| && BestBefore(os, left, best0) && Attained(os, best0)
    requires !Full(Slots(os), left, right) && Full(Slots(os), left, right + 1)
    ensures BestBefore(os, left + 1, best) && Attained(os, best)
  {
    var width := os[right].pos - os[left].pos + 1;
    best := best0;
    if best.Unset? || width < best.width { best := Best(width); }
    BestNext(os, left, right, best);
  }

  lemma WindowBound(ss: seq<nat>, l: nat, r: nat)
    requires l <= r <= |ss|
    ensures |Elements(ss[l..r])| <= |Elements(ss)|
  {
    assert Elements(ss[l..r]) <= Elements(ss);
    SubsetSize(Elements(ss[l..r]), Elements(ss));
  }

  lemma SubsetSize(a: set<nat>, b: set<nat>)
    requires a <= b
    ensures |a| <= |b|
  {
    assert |b - a| == |b| - |a|;
  }

  /** What remains past left holds no full window, so the best so far is the best of all. */
  lemma Conclude(os: seq<Occurrence>, left: nat, best: Best)
    requires left <= |os| && BestBefore(os, left, best) && |Elements(Slots(os))| > 0
    requires |Elements(Slots(os)[left..])| < |Elements(Slots(os))|
    ensures best.Best? && BestBefore(os, |os|, best)
  {
    var ss := Slots(os);
    forall l, r | left <= l < r <= |os| ensures !Full(ss, l, r) {
      assert ss[left..|os|] == ss[left..];
      FullByCount(ss, left, |os|);
      FullGrows(ss, left, l, r, |os|);
    }
    assert Full(ss, 0, |os|) by { assert ss[0..|os|] == ss; }
    assert Elements([]) == {};
  }

  // ---- from occurrences to tokens ----

  lemma MatchedSlots(tp: seq<seq<int>>)
    requires DistinctTokens(tp)
    ensures Elements(Slots(Sort(ByPosition, Merged(tp)))) == Matched(tp)
  {
    var os := Sort(ByPosition, Merged(tp));
    SortedIncreasing(tp);
    forall s ensures s in Elements(Slots(os)) <==> s in Matched(tp) {
      if s in Elements(Slots(os)) {
        var i :| 0 <= i < |os| && Slots(os)[i] == s;
        assert Has(tp, os[i]);
      }
      if s in Matched(tp) {
        var o := Occurrence(tp[s][0], s);
        assert Has(tp, o);
        var i :| 0 <= i < |os| && os[i] == o;
        assert Slots(os)[i] == s;
      }
    }
  }

  /** The occurrences l to r hold every term exactly when the window from the first's token to the last's does. */
  lemma FullIsHolds(tp: seq<seq<int>>, l: nat, r: nat)
    requires DistinctTokens(tp)
    ensures var os := Sort(ByPosition, Merged(tp));
      l < r <= |os| && Full(Slots(os), l, r) ==> Holds(tp, os[l].pos, os[r - 1].pos)
  {
    var os := Sort(ByPosition, Merged(tp));
    SortedIncreasing(tp);
    MatchedSlots(tp);
    if l < r <= |os| && Full(Slots(os), l, r) {
      forall s | s in Matched(tp) ensures HoldsTerm(tp[s], os[l].pos, os[r - 1].pos) {
        assert s in Elements(Slots(os)[l..r]);
        var i :| 0 <= i < r - l && Slots(os)[l..r][i] == s;
        assert Has(tp, os[l + i]) && os[l + i].slot == s;
      }
    }
  }

  /** A window that holds every term holds a full run of occurrences. */
  lemma HoldsIsFull(tp: seq<seq<int>>, a: int, b: int) returns (l: nat, r: nat)
    requires DistinctTokens(tp) && Matched(tp) != {} && Holds(tp, a, b)
    ensures var os := Sort(ByPosition, Merged(tp));
      l < r <= |os| && Full(Slots(os), l, r) && a <= os[l].pos && os[r - 1].pos <= b
  {
    var os := Sort(ByPosition, Merged(tp));
    SortedIncreasing(tp);
    MatchedSlots(tp);
    l := FirstFrom(os, a);
    r := FirstFrom(os, b + 1);
    if r < l { r := l; }
    forall s | s in Matched(tp) ensures s in Slots(os)[l..r] {
      var p :| p in tp[s] && a <= p <= b;
      var o := Occurrence(p, s);
      assert Has(tp, o);
      var i :| 0 <= i < |os| && os[i] == o;
      assert l <= i < r;
      assert Slots(os)[l..r][i - l] == s;
    }
    assert forall s | s in Slots(os)[l..r] :: s in Slots(os);
    assert Elements(Slots(os)[l..r]) == Matched(tp);
    var s :| s in Matched(tp);
    assert s in Slots(os)[l..r];
  }

  /** The occurrences before r are before position p, the others are not. */
  lemma FirstFrom(os: seq<Occurrence>, p: int) returns (r: nat)
    requires Increasing(os)
    ensures r <= |os| && (forall i | 0 <= i < r :: os[i].pos < p) && forall i | r <= i < |os| :: p <= os[i].pos
  {
    r := 0;
    while r < |os| && os[r].pos < p
      invariant r <= |os| && forall i | 0 <= i < r :: os[i].pos < p
    {
      r := r + 1;
    }
  }

  lemma BestIsSmallest(tp: seq<seq<int>>, best: Best)
    requires DistinctTokens(tp) && Matched(tp) != {} && best.Best?
    requires var os := Sort(ByPosition, Merged(tp)); Attained(os, best) && BestBefore(os, |os|, best)
    ensures Smallest(tp, best.width)
  {
    var os := Sort(ByPosition, Merged(tp));
    SortedIncreasing(tp);
    var l, r :| 0 <= l < r <= |os| && Full(Slots(os), l, r) && best.width == Width(os, l, r - 1);
    FullIsHolds(tp, l, r);
    assert best.width > 0 && os[r - 1].pos == os[l].pos + best.width - 1;
    forall a, b | a <= b && Holds(tp, a, b) ensures best.width <= b - a + 1 {
      var i, j := HoldsIsFull(tp, a, b);
    }
  }

  // ---- the score ----

  /** The score of a section: nothing matched is 0, one term its share of the query, several terms how tight
      they are times their share. */
  ghost predicate IsScore(tp: seq<seq<int>>, score: real) {
    var distinct, terms := |Matched(tp)|, |tp|;
    if distinct == 0 then score == 0.0
    else if distinct == 1 then score == 1.0 / terms as real
    else exists best :: Smallest(tp, best) && score == Score(distinct, best, terms)
  }

  function Score(distinct: int, best: int, terms: int): real {
    if best == 0 || terms == 0 then 0.0 else (distinct as real / best as real) * (distinct as real / terms as real)
  }

  /** matched: how many query terms the section holds. */
  method CountMatched(tp: seq<seq<int>>) returns (distinct: nat)
    ensures distinct == |Matched(tp)|
  {
    distinct := 0;
    ghost var seen: set<nat> := {};
    for s := 0 to |tp|
      invariant seen == (set x: nat | x < s && tp[x] != []) && distinct == |seen|
    {
      if |tp[s]| > 0 {
        distinct := distinct + 1;
        seen := seen + {s};
      }
    }
    assert seen == Matched(tp);
  }

  method ProximityScore(tp: seq<seq<int>>, terms: nat) returns (score: real)
    requires terms == |tp| && DistinctTokens(tp)
    ensures IsScore(tp, score)
  {
    var distinct := CountMatched(tp);
    if distinct == 0 || terms == 0 { return 0.0; }
    if distinct == 1 { return 1.0 / terms as real; }
    var best := BestWindow(tp, distinct);
    var tightness := distinct as real / best as real;
    var share := distinct as real / terms as real;
    score := tightness * share;
    assert score == Score(distinct, best, terms);
  }

  method BestWindow(tp: seq<seq<int>>, distinct: nat) returns (best: int)
    requires distinct == |Matched(tp)| > 0 && DistinctTokens(tp)
    ensures Smallest(tp, best)
  {
    hide Full, Elements, Counts;
    var merged := Merge(tp);
    var os := Sort(ByPosition, merged);
    SortedIncreasing(tp);
    MatchedSlots(tp);
    forall i | 0 <= i < |os| ensures os[i].slot < |tp| { assert Has(tp, os[i]); }
    var window := SmallestWindow(os, |tp|, distinct);
    BestIsSmallest(tp, window);
    best := window.width;
  }

  /** A window of best tokens holds at most best terms, since no two terms share a token. */
  lemma {:induction false} WindowHoldsFew(tp: seq<seq<int>>, a: int, b: int, ms: set<nat>)
    requires DistinctTokens(tp) && a <= b + 1 && forall s | s in ms :: s < |tp| && HoldsTerm(tp[s], a, b)
    ensures |ms| <= b - a + 1
    decreases b - a + 1
  {
    if a == b + 1 {
      assert ms == {};
    } else {
      var rest := set s | s in ms && HoldsTerm(tp[s], a, b - 1);
      WindowHoldsFew(tp, a, b - 1, rest);
      var gone := ms - rest;
      forall s, t | s in gone && t in gone ensures s == t { assert b in tp[s] && b in tp[t]; }
      AtMostOne(gone);
      assert |ms| == |rest| + |gone|;
    }
  }

  lemma AtMostOne(s: set<nat>)
    requires forall x, y | x in s && y in s :: x == y
    ensures |s| <= 1
  {
    if s != {} {
      var x :| x in s;
      assert s == {x};
    }
  }

  lemma {:induction false} FewBelow(s: set<nat>, n: nat)
    requires forall x | x in s :: x < n
    ensures |s| <= n
  {
    if n == 0 {
      assert s == {};
    } else {
      FewBelow(s - {n - 1}, n - 1);
      assert |s| <= |s - {n - 1}| + 1;
    }
  }

  lemma Fraction(a: int, b: int)
    requires 0 <= a <= b && b > 0
    ensures 0.0 <= a as real / b as real <= 1.0
  {
  }

  lemma Product(x: real, y: real)
    requires 0.0 <= x <= 1.0 && 0.0 <= y <= 1.0
    ensures 0.0 <= x * y <= 1.0
  {
    NonNegative(x, y);
    NonNegative(1.0 - x, y);
    assert x * y == y - (1.0 - x) * y;
  }

  lemma NonNegative(x: real, y: real)
    requires x >= 0.0 && y >= 0.0
    ensures x * y >= 0.0
  {
  }

  lemma AtLeastItsTerms(tp: seq<seq<int>>, best: int)
    requires DistinctTokens(tp) && Smallest(tp, best)
    ensures |Matched(tp)| <= best
  {
    var a, b :| b == a + best - 1 && Holds(tp, a, b);
    WindowHoldsFew(tp, a, b, Matched(tp));
  }

  lemma ScoreInRange(distinct: int, best: int, terms: int)
    requires 0 < distinct <= best && distinct <= terms
    ensures 0.0 <= Score(distinct, best, terms) <= 1.0
  {
    Fraction(distinct, best);
    Fraction(distinct, terms);
    Product(distinct as real / best as real, distinct as real / terms as real);
  }

  /** The smallest window is no shorter than the number of its terms, so the score lies between 0 and 1; and it
      is one number. */
  lemma ScoreIsAShare(tp: seq<seq<int>>, score: real, other: real)
    requires DistinctTokens(tp) && IsScore(tp, score) && IsScore(tp, other)
    ensures 0.0 <= score <= 1.0 && score == other
  {
    FewBelow(Matched(tp), |tp|);
    var distinct, terms := |Matched(tp)|, |tp|;
    if distinct == 1 {
      Fraction(1, terms);
    } else if distinct > 1 {
      var best :| Smallest(tp, best) && score == Score(distinct, best, terms);
      var same :| Smallest(tp, same) && other == Score(distinct, same, terms);
      SmallestUnique(tp, best, same);
      AtLeastItsTerms(tp, best);
      ScoreInRange(distinct, best, terms);
    }
  }

  lemma SmallestUnique(tp: seq<seq<int>>, x: int, y: int)
    requires Smallest(tp, x) && Smallest(tp, y)
    ensures x == y
  {
    var a, b :| b == a + x - 1 && Holds(tp, a, b);
    var c, d :| d == c + y - 1 && Holds(tp, c, d);
  }

  // ---- what the score rewards ----

  lemma SquareOver(d: int, best: int, terms: int)
    requires best > 0 && terms > 0
    ensures Score(d, best, terms) * (best as real * terms as real) == (d * d) as real
  {
    var x, y := best as real, terms as real;
    var a, b := d as real / x, d as real / y;
    assert a * x == d as real && b * y == d as real;
    assert (a * b) * (x * y) == (a * x) * (b * y);
    assert (d as real) * (d as real) == (d * d) as real;
  }

  lemma Larger(s: real, t: real, x: real, y: real, d: real, e: real)
    requires s * x == d && t * y == e && 0.0 < x <= y && d >= e > 0.0 && (x < y || d > e)
    ensures s > t
  {
    assert (s - t) * (x * y) == (s * x) * y - (t * y) * x == d * y - e * x;
    assert d * y - e * x == d * (y - x) + (d - e) * x;
    Positive(d, y - x);
    Positive(x, d - e);
    Positive(x, y);
    FirstIsPositive(s - t, x * y);
  }

  lemma Positive(a: real, b: real)
    requires a > 0.0 && b >= 0.0
    ensures a * b >= 0.0 && (b > 0.0 ==> a * b > 0.0)
  {
  }

  lemma FirstIsPositive(a: real, b: real)
    requires b > 0.0 && a * b > 0.0
    ensures a > 0.0
  {
  }

  /** With several terms matched, a narrower window scores higher, and so does a window of the same width with more
      terms. */
  lemma TighterScoresHigher(tp: seq<seq<int>>, other: seq<seq<int>>, best: int, loose: int, s: real, t: real)
    requires DistinctTokens(tp) && DistinctTokens(other) && |tp| == |other| && IsScore(tp, s) && IsScore(other, t)
    requires Smallest(tp, best) && Smallest(other, loose) && best <= loose
    requires |Matched(tp)| >= |Matched(other)| > 1 && (best < loose || |Matched(tp)| > |Matched(other)|)
    ensures s > t
  {
    var d, e, terms := |Matched(tp)|, |Matched(other)|, |tp|;
    ScoreOfBest(tp, best, s);
    ScoreOfBest(other, loose, t);
    hide *;
    Squares(d, e);
    LargerOver(s, t, best as real, loose as real, terms as real, (d * d) as real, (e * e) as real);
  }

  lemma LargerOver(s: real, t: real, x: real, y: real, n: real, d: real, e: real)
    requires s * (x * n) == d && t * (y * n) == e && n > 0.0
    requires 0.0 < x <= y && d >= e > 0.0 && (x < y || d > e)
    ensures s > t
  {
    Positive(n, y - x);
    assert y * n - x * n == n * (y - x);
    Positive(x, n);
    Larger(s, t, x * n, y * n, d, e);
  }

  lemma Squares(d: nat, e: nat)
    requires d >= e > 0
    ensures d * d >= e * e > 0 && (d > e ==> d * d > e * e)
  {
  }

  lemma ScoreOfBest(tp: seq<seq<int>>, best: int, s: real)
    requires DistinctTokens(tp) && IsScore(tp, s) && Smallest(tp, best) && |Matched(tp)| > 1
    ensures best > 0 && |tp| > 0
    ensures s == Score(|Matched(tp)|, best, |tp|)
    ensures s * (best as real * |tp| as real) == (|Matched(tp)| * |Matched(tp)|) as real
  {
    FewBelow(Matched(tp), |tp|);
    AtLeastItsTerms(tp, best);
    var same :| Smallest(tp, same) && s == Score(|Matched(tp)|, same, |tp|);
    SmallestUnique(tp, best, same);
    SquareOver(|Matched(tp)|, best, |tp|);
  }

  /** The score is 0 exactly when no term is matched. It is 1 exactly when all are, and stand side by side. */
  lemma PerfectScore(tp: seq<seq<int>>, s: real)
    requires DistinctTokens(tp) && IsScore(tp, s) && tp != []
    ensures s == 0.0 <==> Matched(tp) == {}
    ensures s == 1.0 <==> |Matched(tp)| == |tp| && (|tp| > 1 ==> Smallest(tp, |tp|))
  {
    FewBelow(Matched(tp), |tp|);
    var d, terms := |Matched(tp)|, |tp|;
    assert d == 0 <==> Matched(tp) == {};
    if d == 1 {
      OneOver(terms);
    } else if d > 1 {
      var best :| Smallest(tp, best) && s == Score(d, best, terms);
      ScoreOfBest(tp, best, s);
      AtLeastItsTerms(tp, best);
      OneExactly(d, best, terms, s);
      if Smallest(tp, terms) { SmallestUnique(tp, best, terms); }
    }
  }

  lemma OneOver(terms: int)
    requires terms > 0
    ensures 0.0 < 1.0 / terms as real && (1.0 / terms as real == 1.0 <==> terms == 1)
  {
    var x := 1.0 / terms as real;
    assert x * terms as real == 1.0;
  }

  lemma OneExactly(d: int, best: int, terms: int, s: real)
    requires 0 < d <= best && d <= terms && s * (best as real * terms as real) == (d * d) as real
    ensures s != 0.0 && (s == 1.0 <==> d == best == terms)
  {
    assert best as real * terms as real == (best * terms) as real;
    Squares(d, 1);
    if s == 1.0 {
      assert best * terms == d * d;
      assert best > d ==> best * terms > d * terms >= d * d;
      assert terms > d ==> best * terms > best * d >= d * d;
    }
    if d == best == terms { assert s * (d * d) as real == (d * d) as real; }
  }
}
