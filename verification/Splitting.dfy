/** sourcecode/split.go: a leaf section with too many words is sliced into consecutive children at line ends.
    internal/text/word.go finds the words. Text is a sequence of bytes. */
module Splitting {

  datatype Word = Word(start: nat, end: nat)

  /** Word spans in order, each followed by a separator; only the last word may lose its own last byte. */
  predicate Spans(words: seq<Word>, size: nat) {
    && (forall i | 0 <= i < |words| :: words[i].start <= words[i].end < size)
    && forall i, j | 0 <= i < j < |words| :: words[i].end < words[j].start
  }

  /** Spaces and punctuation separate words; the last word of a text without a final separator ends one byte
      early. */
  method SplitByWords(text: seq<char>, separates: char -> bool) returns (words: seq<Word>)
    ensures Spans(words, |text|)
    ensures forall i | 0 <= i < |words| :: Maximal(text, separates, words[i])
    ensures forall p | 0 <= p < |text| && !separates(text[p]) :: Covered(words, p)
  {
    var start;
    words, start := Scan(text, separates);
    if start >= 0 {
      AddWord(text, separates, words, start, |text| - 1);
      words := words + [Word(start, |text| - 1)];
    }
  }

  /** The words that end before the text does; start is where a word is still open, or -1. */
  method Scan(text: seq<char>, separates: char -> bool) returns (words: seq<Word>, start: int)
    ensures -1 <= start < |text| && Scanned(text, separates, words, if start < 0 then |text| else start)
    ensures start >= 0 ==> Runs(text, separates, start, |text|)
  {
    words, start := [], -1;
    for p := 0 to |text|
      invariant -1 <= start < p
      invariant Scanned(text, separates, words, if start < 0 then p else start)
      invariant if start < 0 then p > 0 ==> separates(text[p - 1]) else Runs(text, separates, start, p)
    {
      if separates(text[p]) {
        if start >= 0 {
          AddWord(text, separates, words, start, p);
          words := words + [Word(start, p)];
          start := -1;
        }
      } else if start < 0 {
        start := p;
      }
    }
  }

  /** A word may begin at a and has not ended before b. */
  predicate Runs(text: seq<char>, separates: char -> bool, a: nat, b: nat)
    requires a <= b <= |text|
  {
    (a > 0 ==> separates(text[a - 1])) && forall q | a <= q < b :: !separates(text[q])
  }

  /** The words of the first p bytes. */
  predicate Scanned(text: seq<char>, separates: char -> bool, words: seq<Word>, p: nat)
    requires p <= |text|
  {
    && Spans(words, p)
    && (forall i | 0 <= i < |words| :: Maximal(text, separates, words[i]))
    && forall q | 0 <= q < p && !separates(text[q]) :: Covered(words, q)
  }

  lemma AddWord(text: seq<char>, separates: char -> bool, words: seq<Word>, a: nat, e: nat)
    requires a <= e < |text| && Scanned(text, separates, words, a) && Runs(text, separates, a, e)
    requires !separates(text[a]) && (separates(text[e]) || e == |text| - 1)
    ensures Scanned(text, separates, words + [Word(a, e)], e + 1)
  {
    var more := words + [Word(a, e)];
    assert more[|words|] == Word(a, e);
    forall q | 0 <= q < e + 1 && !separates(text[q]) ensures Covered(more, q) {
      if q < a {
        assert Covered(words, q);
        var w :| w in words && w.start <= q <= w.end;
        assert w in more;
      }
    }
  }

  predicate Covered(words: seq<Word>, p: nat) { exists w | w in words :: w.start <= p <= w.end }

  predicate Opens(text: seq<char>, separates: char -> bool, p: nat)
    requires p < |text|
  {
    !separates(text[p]) && (p > 0 ==> separates(text[p - 1]))
  }

  /** A run of bytes that do not separate, as long as it can be. */
  predicate Maximal(text: seq<char>, separates: char -> bool, w: Word) {
    && w.start <= w.end < |text| && Opens(text, separates, w.start)
    && (forall q | w.start <= q < w.end :: !separates(text[q]))
    && (separates(text[w.end]) || w.end == |text| - 1)
  }

  // ---- one leaf ----

  /** bytes.IndexByte. */
  function IndexByte(s: seq<char>, c: char): (r: int)
    ensures -1 <= r < |s|
    ensures r < 0 ==> c !in s
    ensures r >= 0 ==> s[r] == c && c !in s[..r]
  {
    if s == [] then -1
    else if s[0] == c then 0
    else
      var rest := IndexByte(s[1..], c);
      assert rest >= 0 ==> s[..rest + 1] == [s[0]] + s[1..][..rest];
      if rest < 0 then -1 else rest + 1
  }

  datatype Range = Range(start: nat, end: nat)

  /** Where the chunk of n words from word number from is cut: after the line of its last word. */
  function Cut(content: seq<char>, words: seq<Word>, n: nat, from: nat): (r: nat)
    requires Spans(words, |content|) && n > 0 && from < |words|
    ensures 0 < r <= |content|
  {
    assert words[from].end < |content|;
    if from + n >= |words| then |content|
    else
      var end := words[from + n - 1].end;
      var offset := IndexByte(content[end..], '\n');
      if offset >= 0 then end + offset + 1 else |content|
  }

  /** The slices from word number from and byte cursor on. */
  function Slices(content: seq<char>, words: seq<Word>, n: nat, from: nat, cursor: nat): seq<Range>
    requires Spans(words, |content|) && n > 0
    decreases |words| - from
  {
    if from >= |words| || cursor >= |content| then []
    else
      var cut := Cut(content, words, n, from);
      if cut <= cursor then Slices(content, words, n, from + n, cursor)
      else [Range(cursor, cut)] + Slices(content, words, n, from + n, cut)
  }

  function SliceLeaf(content: seq<char>, words: seq<Word>, maxWords: int): seq<Range>
    requires Spans(words, |content|)
  {
    if maxWords <= 0 || |words| <= maxWords then [] else Slices(content, words, maxWords, 0, 0)
  }

  /** The loop of splitOversized over one leaf; start is where the leaf begins in the document. */
  method SplitLeaf(content: seq<char>, words: seq<Word>, maxWords: int, start: nat) returns (children: seq<Range>)
    requires Spans(words, |content|)
    ensures children == Shift(SliceLeaf(content, words, maxWords), start)
  {
    hide Slices, Cut, Rest, Spans;
    children := [];
    assert Shift([], start) == [];
    if maxWords <= 0 || |words| <= maxWords { return; }
    var cursor, from := 0, 0;
    ghost var done: seq<Range> := [];
    NothingCut(content, words, maxWords);
    while from < |words| && cursor < |content|
      invariant cursor <= |content| && children == Shift(done, start)
      invariant Rest(content, words, maxWords, done, from, cursor)
      decreases |words| - from
    {
      var cut := FindCut(content, words, maxWords, from);
      RestStep(content, words, maxWords, done, from, cursor);
      if cut > cursor {
        children := children + [Range(start + cursor, start + cut)];
        done := done + [Range(cursor, cut)];
        cursor := cut;
      }
      from := from + maxWords;
    }
    NothingLeft(content, words, maxWords, done, from, cursor);
  }

  lemma NothingLeft(content: seq<char>, words: seq<Word>, n: nat, done: seq<Range>, from: nat, cursor: nat)
    requires Spans(words, |content|) && n > 0 && Rest(content, words, n, done, from, cursor)
    requires from >= |words| || cursor >= |content|
    ensures done == Slices(content, words, n, 0, 0)
  {
    assert done + [] == done;
  }

  lemma NothingCut(content: seq<char>, words: seq<Word>, n: nat)
    requires Spans(words, |content|) && n > 0
    ensures Rest(content, words, n, [], 0, 0)
  {
  }

  /** What was cut so far and what follows make up all the slices. */
  predicate Rest(content: seq<char>, words: seq<Word>, n: nat, done: seq<Range>, from: nat, cursor: nat)
    requires Spans(words, |content|) && n > 0
  {
    Slices(content, words, n, 0, 0) == done + Slices(content, words, n, from, cursor)
  }

  lemma RestStep(content: seq<char>, words: seq<Word>, n: nat, done: seq<Range>, from: nat, cursor: nat)
    requires Spans(words, |content|) && n > 0 && from < |words| && cursor < |content|
    requires Rest(content, words, n, done, from, cursor)
    ensures var cut := Cut(content, words, n, from);
      if cut <= cursor then Rest(content, words, n, done, from + n, cursor)
      else Rest(content, words, n, done + [Range(cursor, cut)], from + n, cut)
  {
    var cut := Cut(content, words, n, from);
    var rest := Slices(content, words, n, from + n, cut);
    assert done + ([Range(cursor, cut)] + rest) == done + [Range(cursor, cut)] + rest;
  }

  method FindCut(content: seq<char>, words: seq<Word>, maxWords: nat, from: nat) returns (cut: nat)
    requires Spans(words, |content|) && maxWords > 0 && from < |words|
    ensures cut == Cut(content, words, maxWords, from)
  {
    cut := |content|;
    if from + maxWords < |words| {
      var end := words[from + maxWords - 1].end;
      var offset := IndexByte(content[end..], '\n');
      if offset >= 0 { cut := end + offset + 1; }
    }
  }

  function Shift(rs: seq<Range>, d: nat): (r: seq<Range>)
    ensures |r| == |rs| && forall i | 0 <= i < |rs| :: r[i] == Range(rs[i].start + d, rs[i].end + d)
  {
    seq(|rs|, i requires 0 <= i < |rs| => Range(rs[i].start + d, rs[i].end + d))
  }

  // ---- what the slices are ----

  /** Consecutive non-empty ranges from a to b. */
  predicate Tile(rs: seq<Range>, a: nat, b: nat) {
    if rs == [] then a == b
    else rs[0].start == a < rs[0].end <= b && Tile(rs[1..], rs[0].end, b)
  }

  /** A cut inside the text follows a newline. */
  predicate CutsLines(content: seq<char>, rs: seq<Range>) {
    forall r | r in rs :: 0 < r.end <= |content| && (r.end == |content| || content[r.end - 1] == '\n')
  }

  predicate OneLine(content: seq<char>, a: nat, b: int) { forall p | a <= p < b && p < |content| :: content[p] != '\n' }

  /** Once n words have started in the range, any word after them is on the range's last line. */
  ghost predicate Packed(content: seq<char>, words: seq<Word>, n: nat, r: Range) {
    forall i, j | 0 <= i && 0 <= j && AfterFull(words, n, r, i, j) :: OneLine(content, words[i + n - 1].end, r.end - 1)
  }

  /** Words i to j start in the range, and there are more than n of them. */
  predicate AfterFull(words: seq<Word>, n: nat, r: Range, i: nat, j: nat) {
    n > 0 && i + n <= j < |words| && r.start <= words[i].start && words[j].start < r.end
  }

  /** A range is filled: word number from + n - 1, the last of a chunk, starts before its end. */
  lemma CutPasses(content: seq<char>, words: seq<Word>, n: nat, from: nat)
    requires Spans(words, |content|) && n > 0 && from < |words|
    ensures var c := Cut(content, words, n, from);
      && (c == |content| || content[c - 1] == '\n')
      && (from + n <= |words| ==> words[from + n - 1].end < c)
      && (from + n >= |words| ==> c == |content|)
      && (from + n < |words| ==> OneLine(content, words[from + n - 1].end, c - 1))
  {
    if from + n < |words| {
      var end := words[from + n - 1].end;
      var tail := content[end..];
      var offset := IndexByte(tail, '\n');
      var c := Cut(content, words, n, from);
      forall p | end <= p < c - 1 && p < |content| ensures content[p] != '\n' {
        assert content[p] == tail[p - end];
        if offset >= 0 { assert tail[p - end] in tail[..offset]; }
      }
    }
  }

  lemma CutPacked(content: seq<char>, words: seq<Word>, n: nat, from: nat, cursor: nat)
    requires Spans(words, |content|) && n > 0 && from < |words|
    requires from > 0 ==> words[from - 1].end < cursor
    ensures Packed(content, words, n, Range(cursor, Cut(content, words, n, from)))
  {
    CutPasses(content, words, n, from);
    var r := Range(cursor, Cut(content, words, n, from));
    forall i, j | 0 <= i && 0 <= j && AfterFull(words, n, r, i, j)
      ensures OneLine(content, words[i + n - 1].end, r.end - 1)
    {
      assert i >= from;
      assert words[from + n - 1].end <= words[i + n - 1].end;
    }
  }

  /** The ranges tile the text from cursor on, are cut at line ends, and hold no more than they should. */
  ghost predicate WellCut(content: seq<char>, words: seq<Word>, n: nat, rs: seq<Range>, cursor: nat) {
    Tile(rs, cursor, |content|) && CutsLines(content, rs) && forall r | r in rs :: Packed(content, words, n, r)
  }

  lemma CutOneMore(content: seq<char>, words: seq<Word>, n: nat, from: nat, cursor: nat, rest: seq<Range>)
    requires Spans(words, |content|) && n > 0 && from < |words| && (from > 0 ==> words[from - 1].end < cursor)
    requires cursor < Cut(content, words, n, from) && WellCut(content, words, n, rest, Cut(content, words, n, from))
    ensures WellCut(content, words, n, [Range(cursor, Cut(content, words, n, from))] + rest, cursor)
  {
    CutPasses(content, words, n, from);
    CutPacked(content, words, n, from, cursor);
    hide Cut, Packed, OneLine, Spans;
    var r := Range(cursor, Cut(content, words, n, from));
    assert ([r] + rest)[1..] == rest;
  }

  lemma {:induction false} SlicesCorrect(content: seq<char>, words: seq<Word>, n: nat, from: nat, cursor: nat)
    requires Spans(words, |content|) && n > 0 && cursor <= |content|
    requires 0 < from <= |words| ==> words[from - 1].end < cursor
    requires from >= |words| ==> cursor == |content|
    ensures WellCut(content, words, n, Slices(content, words, n, from, cursor), cursor)
    decreases |words| - from
  {
    if from < |words| && cursor < |content| {
      var cut := Cut(content, words, n, from);
      CutPasses(content, words, n, from);
      hide Cut, OneLine, Spans, WellCut;
      SlicesCorrect(content, words, n, from + n, if cut <= cursor then cursor else cut);
      if cut > cursor { CutOneMore(content, words, n, from, cursor, Slices(content, words, n, from + n, cut)); }
    }
  }

  /** An oversized leaf is tiled exactly; it is cut only after newlines; and a child with its n words holds no
      more words than those that complete its last line. */
  lemma SliceLeafCorrect(content: seq<char>, words: seq<Word>, maxWords: nat)
    requires Spans(words, |content|) && 0 < maxWords < |words|
    ensures var rs := SliceLeaf(content, words, maxWords);
      && Tile(rs, 0, |content|) && CutsLines(content, rs)
      && forall r | r in rs :: Packed(content, words, maxWords, r)
  {
    SlicesCorrect(content, words, maxWords, 0, 0);
  }

  // ---- where the cuts fall ----

  /** How many words k chunks of n have. */
  function Chunks(n: nat, k: nat): nat { if k == 0 then 0 else Chunks(n, k - 1) + n }

  lemma {:induction false} ChunksTimes(n: nat, k: nat)
    ensures Chunks(n, k) == k * n
  {
    if k > 0 { ChunksTimes(n, k - 1); }
  }

  /** Where the k-th chunk is cut off: nothing before the first, and the rest of the text after the last. */
  function CutAt(content: seq<char>, words: seq<Word>, n: nat, k: nat): nat
    requires Spans(words, |content|) && n > 0
  {
    if k == 0 then 0
    else if Chunks(n, k - 1) < |words| then Cut(content, words, n, Chunks(n, k - 1))
    else |content|
  }

  /** p is the end of the line on which position a lies. */
  predicate EndsLine(content: seq<char>, a: nat, p: nat) {
    a < p <= |content| && content[p - 1] == '\n' && OneLine(content, a, p - 1)
  }

  predicate LineOrText(content: seq<char>, a: nat, p: nat) {
    EndsLine(content, a, p) || (a < p == |content| && OneLine(content, a, p - 1))
  }

  lemma CutAtSight(content: seq<char>, words: seq<Word>, n: nat, k: nat)
    requires Spans(words, |content|) && n > 0 && k > 0
    ensures CutAt(content, words, n, k) <= |content|
    ensures Chunks(n, k) >= |words| ==> CutAt(content, words, n, k) == |content|
    ensures Chunks(n, k) < |words| ==> LineOrText(content, words[Chunks(n, k) - 1].end, CutAt(content, words, n, k))
  {
    hide Cut, OneLine, Spans;
    if Chunks(n, k - 1) < |words| { CutLine(content, words, n, Chunks(n, k - 1)); }
  }

  lemma CutLine(content: seq<char>, words: seq<Word>, n: nat, from: nat)
    requires Spans(words, |content|) && n > 0 && from < |words|
    ensures from + n >= |words| ==> Cut(content, words, n, from) == |content|
    ensures from + n < |words| ==> LineOrText(content, words[from + n - 1].end, Cut(content, words, n, from))
  {
    CutPasses(content, words, n, from);
    hide OneLine;
  }

  lemma LinesRise(content: seq<char>, a: nat, c: nat, b: nat, d: nat)
    requires LineOrText(content, a, c) && LineOrText(content, b, d) && a <= b
    ensures c <= d
  {
  }

  lemma CutsRise(content: seq<char>, words: seq<Word>, n: nat, k: nat)
    requires Spans(words, |content|) && n > 0
    ensures CutAt(content, words, n, k) <= CutAt(content, words, n, k + 1) <= |content|
  {
    hide LineOrText, Cut;
    CutAtSight(content, words, n, k + 1);
    if k > 0 {
      CutAtSight(content, words, n, k);
      if Chunks(n, k + 1) < |words| {
        LinesRise(content, words[Chunks(n, k) - 1].end, CutAt(content, words, n, k),
          words[Chunks(n, k + 1) - 1].end, CutAt(content, words, n, k + 1));
      }
    }
  }

  lemma {:induction false} CutsRiseTo(content: seq<char>, words: seq<Word>, n: nat, j: nat, k: nat)
    requires Spans(words, |content|) && n > 0 && j <= k
    ensures CutAt(content, words, n, j) <= CutAt(content, words, n, k) <= |content|
    decreases k
  {
    hide CutAt, Spans;
    if j < k {
      CutsRiseTo(content, words, n, j, k - 1);
      CutsRise(content, words, n, k - 1);
    } else {
      CutsRise(content, words, n, k);
    }
  }

  /** r lies between the k-th cut and the one before it, and is not empty. */
  predicate Between(content: seq<char>, words: seq<Word>, n: nat, k: nat, r: Range)
    requires Spans(words, |content|) && n > 0
  {
    k > 0 && CutAt(content, words, n, k - 1) == r.start < r.end == CutAt(content, words, n, k)
  }

  lemma NoChunks(n: nat)
    ensures Chunks(n, 0) == 0
  {
  }

  lemma NoneBetween(content: seq<char>, words: seq<Word>, n: nat, k: nat, j: nat, r: Range)
    requires Spans(words, |content|) && n > 0 && j > k && words != []
    requires Chunks(n, k) >= |words| || CutAt(content, words, n, k) >= |content|
    ensures !Between(content, words, n, j, r)
  {
    hide Spans, CutAt, Chunks;
    CutsRiseTo(content, words, n, k, j - 1);
    CutsRiseTo(content, words, n, j, j);
    if k > 0 { CutAtSight(content, words, n, k); } else { NoChunks(n); }
  }

  lemma SliceNext(content: seq<char>, words: seq<Word>, n: nat, k: nat, r: Range)
    requires Spans(words, |content|) && n > 0
    requires Chunks(n, k) < |words| && CutAt(content, words, n, k) < |content|
    ensures r in Slices(content, words, n, Chunks(n, k), CutAt(content, words, n, k)) <==>
      r in Slices(content, words, n, Chunks(n, k + 1), CutAt(content, words, n, k + 1))
      || Between(content, words, n, k + 1, r)
  {
    hide Spans, Cut;
    CutsRise(content, words, n, k);
  }

  lemma {:induction false} SlicesBetween(content: seq<char>, words: seq<Word>, n: nat, k: nat, r: Range)
    requires Spans(words, |content|) && n > 0 && words != []
    ensures r in Slices(content, words, n, Chunks(n, k), CutAt(content, words, n, k)) <==>
      exists j: nat | j > k :: Between(content, words, n, j, r)
    decreases |words| - Chunks(n, k)
  {
    hide Spans, Between, CutAt;
    if Chunks(n, k) >= |words| || CutAt(content, words, n, k) >= |content| {
      forall j: nat | j > k ensures !Between(content, words, n, j, r) { NoneBetween(content, words, n, k, j, r); }
    } else {
      hide Slices;
      SlicesBetween(content, words, n, k + 1, r);
      SliceNext(content, words, n, k, r);
    }
  }

  /** The slices are what lies between two cuts in a row. */
  lemma ChildrenBetween(content: seq<char>, words: seq<Word>, n: nat, r: Range)
    requires Spans(words, |content|) && 0 < n < |words|
    ensures r in SliceLeaf(content, words, n) <==> exists k: nat :: Between(content, words, n, k, r)
  {
    hide Spans, Slices;
    SlicesBetween(content, words, n, 0, r);
  }

  lemma {:induction false} CutIsUsed(content: seq<char>, words: seq<Word>, n: nat, k: nat)
    requires Spans(words, |content|) && n > 0 && CutAt(content, words, n, k) > 0
    ensures exists j, r :: Between(content, words, n, j, r) && r.end == CutAt(content, words, n, k)
  {
    hide Spans, Cut;
    CutsRise(content, words, n, k - 1);
    var r := Range(CutAt(content, words, n, k - 1), CutAt(content, words, n, k));
    if r.start < r.end { assert Between(content, words, n, k, r); } else { CutIsUsed(content, words, n, k - 1); }
  }

  lemma LineEndsOnce(content: seq<char>, a: nat, p: nat, c: nat)
    requires EndsLine(content, a, p) && LineOrText(content, a, c)
    ensures p == c > 0
  {
  }

  lemma {:induction false} ChunksGrow(n: nat, k: nat)
    requires n > 0
    ensures Chunks(n, k) >= k
  {
    if k > 0 { ChunksGrow(n, k - 1); }
  }

  lemma IsACut(content: seq<char>, words: seq<Word>, n: nat, p: nat)
    requires Spans(words, |content|) && 0 < n < |words|
    ensures (p > 0 && exists k: nat | k > 0 :: CutAt(content, words, n, k) == p) <==>
      p == |content| || exists k: nat | k > 0 && k * n < |words| :: EndsLine(content, words[k * n - 1].end, p)
  {
    hide LineOrText, CutAt, EndsLine, Chunks;
    if k: nat :| k > 0 && CutAt(content, words, n, k) == p {
      CutAtSight(content, words, n, k);
      ChunksTimes(n, k);
      if k * n < |words| { LineAtCut(content, words[k * n - 1].end, p); }
    }
    if k: nat :| k > 0 && k * n < |words| && EndsLine(content, words[k * n - 1].end, p) {
      CutAtSight(content, words, n, k);
      ChunksTimes(n, k);
      LineEndsOnce(content, words[k * n - 1].end, p, CutAt(content, words, n, k));
    }
    if p == |content| {
      ChunksGrow(n, |words|);
      CutAtSight(content, words, n, |words|);
      assert words[0].end < |content|;
    }
  }

  lemma LineAtCut(content: seq<char>, a: nat, p: nat)
    requires LineOrText(content, a, p)
    ensures p == |content| || EndsLine(content, a, p)
  {
  }

  /** A leaf is cut after the lines on which its n-th, 2n-th, ... words end, and nowhere else. */
  lemma CutsFollowChunks(content: seq<char>, words: seq<Word>, n: nat, p: nat)
    requires Spans(words, |content|) && 0 < n < |words|
    ensures (exists r | r in SliceLeaf(content, words, n) :: r.end == p) <==>
      p == |content| || exists k: nat | k > 0 && k * n < |words| :: EndsLine(content, words[k * n - 1].end, p)
  {
    IsACut(content, words, n, p);
    hide SliceLeaf, Spans, EndsLine, CutAt;
    if r :| r in SliceLeaf(content, words, n) && r.end == p { ChildrenBetween(content, words, n, r); }
    if k: nat :| p > 0 && k > 0 && CutAt(content, words, n, k) == p {
      CutIsUsed(content, words, n, k);
      var j, r :| Between(content, words, n, j, r) && r.end == p;
      ChildrenBetween(content, words, n, r);
    }
  }

  // ---- how many words a child holds ----

  /** How many words end before p. */
  function Ended(words: seq<Word>, p: nat): nat {
    if words == [] then 0 else Ended(words[..|words| - 1], p) + if words[|words| - 1].end < p then 1 else 0
  }

  function Held(words: seq<Word>, r: Range): int { Ended(words, r.end) - Ended(words, r.start) }

  lemma {:induction false} EndedIs(words: seq<Word>, size: nat, p: nat, m: nat)
    requires Spans(words, size) && m <= |words| && (m > 0 ==> words[m - 1].end < p)
    ensures Ended(words, p) >= m
    ensures m == |words| || words[m].end >= p ==> Ended(words, p) == m
  {
    if 0 < |words| {
      var n := |words| - 1;
      assert m <= n ==> words[m].end <= words[n].end;
      EndedIs(words[..n], size, p, if m <= n then m else n);
    }
  }

  lemma ChunkEnded(content: seq<char>, words: seq<Word>, n: nat, from: nat)
    requires Spans(words, |content|) && n > 0 && from < |words| && Cut(content, words, n, from) < |content|
    ensures Ended(words, Cut(content, words, n, from)) >= from + n
  {
    CutPasses(content, words, n, from);
    hide Ended, OneLine;
    if from + n <= |words| { EndedIs(words, |content|, Cut(content, words, n, from), from + n); }
  }

  lemma {:induction false} SlicesTogether(content: seq<char>, words: seq<Word>, n: nat, k: nat, cursor: nat, i: nat)
    requires Spans(words, |content|) && n > 0 && cursor <= |content|
    requires i < |Slices(content, words, n, Chunks(n, k), cursor)|
    requires Slices(content, words, n, Chunks(n, k), cursor)[i].end < |content|
    ensures Ended(words, Slices(content, words, n, Chunks(n, k), cursor)[i].end) >= Chunks(n, k + i + 1)
    decreases |words| - Chunks(n, k)
  {
    hide Cut, Spans, Ended;
    var from := Chunks(n, k);
    var cut := Cut(content, words, n, from);
    if cursor >= cut {
      SlicesTogether(content, words, n, k + 1, cursor, i);
    } else if i > 0 {
      SlicesTogether(content, words, n, k + 1, cut, i - 1);
    } else {
      ChunkEnded(content, words, n, from);
    }
  }

  lemma {:induction false} TileEnds(rs: seq<Range>, a: nat, b: nat, i: nat)
    requires Tile(rs, a, b) && i + 1 < |rs|
    ensures rs[i].end < b
  {
    if i > 0 { TileEnds(rs[1..], rs[0].end, b, i - 1); }
  }

  /** Children are not cut too small: up to the last, the first i of them hold at least i times maxWords words. */
  lemma ChildrenHoldTheirShare(content: seq<char>, words: seq<Word>, maxWords: nat, i: nat)
    requires Spans(words, |content|) && 0 < maxWords < |words| && i + 1 < |SliceLeaf(content, words, maxWords)|
    ensures Ended(words, SliceLeaf(content, words, maxWords)[i].end) >= (i + 1) * maxWords
  {
    var rs := SliceLeaf(content, words, maxWords);
    SliceLeafCorrect(content, words, maxWords);
    TileEnds(rs, 0, |content|, i);
    SlicesTogether(content, words, maxWords, 0, 0, i);
    ChunksTimes(maxWords, i + 1);
  }

  /** The words on the last line of chunk k that are beyond the chunk. */
  function Over(content: seq<char>, words: seq<Word>, n: nat, k: nat): int
    requires Spans(words, |content|) && n > 0
  {
    Ended(words, CutAt(content, words, n, k)) - Chunks(n, k)
  }

  /** The text is cut after chunk k, and chunk k is not the rest of it. */
  predicate CutsAfter(content: seq<char>, words: seq<Word>, n: nat, k: nat)
    requires Spans(words, |content|) && n > 0
    ensures CutsAfter(content, words, n, k) ==> k > 0
  {
    k > 0 && CutAt(content, words, n, k - 1) < CutAt(content, words, n, k) < |content|
  }

  /** Each child but the last holds maxWords words exactly when, wherever the text is cut, the line goes on past
      its chunk with at least as many words as the line before went on past the chunk before. */
  lemma EveryChildIsFull(content: seq<char>, words: seq<Word>, n: nat)
    requires Spans(words, |content|) && 0 < n < |words|
    ensures (forall r | r in SliceLeaf(content, words, n) && r.end < |content| :: Held(words, r) >= n) <==>
      forall k: nat | CutsAfter(content, words, n, k) :: Over(content, words, n, k) >= Over(content, words, n, k - 1)
  {
    hide Spans, SliceLeaf, CutAt, Ended;
    forall r ensures r in SliceLeaf(content, words, n) <==> exists k: nat :: Between(content, words, n, k, r) {
      ChildrenBetween(content, words, n, r);
    }
    if forall r | r in SliceLeaf(content, words, n) && r.end < |content| :: Held(words, r) >= n {
      forall k: nat | CutsAfter(content, words, n, k)
        ensures Over(content, words, n, k) >= Over(content, words, n, k - 1)
      {
        var r := Range(CutAt(content, words, n, k - 1), CutAt(content, words, n, k));
        assert Between(content, words, n, k, r);
        assert Held(words, r) >= n;
      }
    }
    forall r | r in SliceLeaf(content, words, n) && r.end < |content|
      ensures exists k: nat | CutsAfter(content, words, n, k) ::
        Held(words, r) - n == Over(content, words, n, k) - Over(content, words, n, k - 1)
    {
      var k: nat :| Between(content, words, n, k, r);
      assert CutsAfter(content, words, n, k) && Chunks(n, k) == Chunks(n, k - 1) + n;
      assert Held(words, r) == Over(content, words, n, k) + Chunks(n, k)
        - (Over(content, words, n, k - 1) + Chunks(n, k - 1));
    }
  }

  lemma IndexIs(s: seq<char>, c: char, i: nat)
    requires i < |s| && s[i] == c && c !in s[..i]
    ensures IndexByte(s, c) == i
  {
    assert forall q | 0 <= q < i :: s[..i][q] == s[q];
    var r := IndexByte(s, c);
    assert forall q | 0 <= q < r :: s[..r][q] == s[q];
  }

  lemma SlicesOf(content: seq<char>, words: seq<Word>)
    requires Spans(words, |content|) && |words| == 5
    ensures var a, b := Cut(content, words, 2, 0), Cut(content, words, 2, 2);
      a < b < |content| ==> SliceLeaf(content, words, 2) == [Range(0, a), Range(a, b), Range(b, |content|)]
  {
    var a, b := Cut(content, words, 2, 0), Cut(content, words, 2, 2);
    if a < b < |content| {
      assert Slices(content, words, 2, 4, b) == [Range(b, |content|)];
      assert Slices(content, words, 2, 2, a) == [Range(a, b), Range(b, |content|)];
    }
  }

  /** Of three lines, cut every two words, the first has three words, so one is left for the second child. */
  lemma ThinChild()
    ensures var words := [Word(0, 1), Word(2, 3), Word(4, 5), Word(6, 7), Word(8, 8)];
      Spans(words, 9) && SliceLeaf("a b c\nd\ne", words, 2) == [Range(0, 6), Range(6, 8), Range(8, 9)]
      && Held(words, Range(6, 8)) == 1
  {
    var words := [Word(0, 1), Word(2, 3), Word(4, 5), Word(6, 7), Word(8, 8)];
    var content := "a b c\nd\ne";
    IndexIs(content[3..], '\n', 2);
    IndexIs(content[7..], '\n', 0);
    SlicesOf(content, words);
    EndedIs(words, 9, 6, 3);
    EndedIs(words, 9, 8, 4);
  }

  // ---- the whole tree ----

  datatype Tree = Node(start: nat, end: nat, kids: seq<Tree>)

  ghost predicate Splits(f: seq<char> -> seq<Word>) { forall text :: Spans(f(text), |text|) }

  /** SplitByWords as the slicer sees it: spans in order. */
  type Splitter = f: seq<char> -> seq<Word> | Splits(f) ghost witness text => []

  predicate InText(data: seq<char>, t: Tree) {
    t.start <= t.end <= |data| && forall k | k in t.kids :: InText(data, k)
  }

  function Leaf(r: Range): Tree { Node(r.start, r.end, []) }

  function Leaves(rs: seq<Range>): (r: seq<Tree>)
    ensures |r| == |rs|
  {
    if rs == [] then [] else [Leaf(rs[0])] + Leaves(rs[1..])
  }

  /** The tree with its oversized leaves sliced. */
  function SplitOversized(data: seq<char>, f: Splitter, maxWords: int, t: Tree): Tree
    requires InText(data, t)
  {
    if t.kids != [] then t.(kids := SplitEach(data, f, maxWords, t.kids))
    else
      var content := data[t.start..t.end];
      assert Splits(f);
      t.(kids := Leaves(Shift(SliceLeaf(content, f(content), maxWords), t.start)))
  }

  function SplitEach(data: seq<char>, f: Splitter, maxWords: int, ts: seq<Tree>): (r: seq<Tree>)
    requires forall t | t in ts :: InText(data, t)
    ensures |r| == |ts|
  {
    if ts == [] then [] else [SplitOversized(data, f, maxWords, ts[0])] + SplitEach(data, f, maxWords, ts[1..])
  }

  /** The text of the leaves, in order: what an index of the leaves holds. */
  function LeafText(data: seq<char>, t: Tree): seq<char>
    requires InText(data, t)
  {
    if t.kids == [] then data[t.start..t.end] else LeafTexts(data, t.kids)
  }

  function LeafTexts(data: seq<char>, ts: seq<Tree>): seq<char>
    requires forall t | t in ts :: InText(data, t)
  {
    if ts == [] then [] else LeafText(data, ts[0]) + LeafTexts(data, ts[1..])
  }

  lemma {:induction false} TilesHoldTheText(data: seq<char>, rs: seq<Range>, a: nat, b: nat, d: nat)
    requires Tile(rs, a, b) && d + b <= |data|
    ensures var ts := Leaves(Shift(rs, d));
      a <= b && (forall t | t in ts :: InText(data, t)) && LeafTexts(data, ts) == data[d + a..d + b]
  {
    if rs != [] {
      var m := rs[0].end;
      TilesHoldTheText(data, rs[1..], m, b, d);
      assert Shift(rs, d)[1..] == Shift(rs[1..], d);
      var ts := Leaves(Shift(rs, d));
      assert ts == [Leaf(Range(d + a, d + m))] + Leaves(Shift(rs[1..], d));
      assert ts[1..] == Leaves(Shift(rs[1..], d));
      assert data[d + a..d + m] + data[d + m..d + b] == data[d + a..d + b];
    }
  }

  lemma LeafKeepsText(data: seq<char>, f: Splitter, maxWords: int, t: Tree)
    requires InText(data, t) && t.kids == []
    ensures var u := SplitOversized(data, f, maxWords, t);
      InText(data, u) && LeafText(data, u) == LeafText(data, t)
  {
    hide Slices, CutsLines, Packed, Tile;
    var content := data[t.start..t.end];
    assert Splits(f);
    var words := f(content);
    if 0 < maxWords < |words| {
      assert words[0].end < |content|;
      SliceLeafCorrect(content, words, maxWords);
      TilesHoldTheText(data, SliceLeaf(content, words, maxWords), 0, |content|, t.start);
    }
  }

  /** Splitting loses and repeats no byte of any leaf, and leaves the sections that have children as they were. */
  lemma {:induction false} SplittingKeepsText(data: seq<char>, f: Splitter, maxWords: int, t: Tree)
    requires InText(data, t)
    ensures var u := SplitOversized(data, f, maxWords, t);
      && u.start == t.start && u.end == t.end && (t.kids != [] ==> |u.kids| == |t.kids|)
      && InText(data, u) && LeafText(data, u) == LeafText(data, t)
    decreases t, 0
  {
    if t.kids == [] { LeafKeepsText(data, f, maxWords, t); } else { EachKeepsText(data, f, maxWords, t.kids); }
  }

  lemma {:induction false} EachKeepsText(data: seq<char>, f: Splitter, maxWords: int, ts: seq<Tree>)
    requires forall t | t in ts :: InText(data, t)
    ensures var us := SplitEach(data, f, maxWords, ts);
      (forall u | u in us :: InText(data, u)) && LeafTexts(data, us) == LeafTexts(data, ts)
    decreases ts, 1
  {
    if ts != [] {
      SplittingKeepsText(data, f, maxWords, ts[0]);
      EachKeepsText(data, f, maxWords, ts[1..]);
      var us := SplitEach(data, f, maxWords, ts);
      assert us[1..] == SplitEach(data, f, maxWords, ts[1..]);
    }
  }

  // ---- the leaves of the new tree ----

  ghost predicate IsLeaf(t: Tree, r: Range) {
    if t.kids == [] then r == Range(t.start, t.end) else exists k | k in t.kids :: IsLeaf(k, r)
  }

  ghost predicate AnyLeaf(ts: seq<Tree>, r: Range) { exists t | t in ts :: IsLeaf(t, r) }

  /** r is what is left of the leaf l: the leaf itself when it has no more than maxWords words, or one of its slices. */
  ghost predicate PieceOf(data: seq<char>, f: Splitter, maxWords: int, l: Range, r: Range) {
    && l.start <= l.end <= |data|
    && var content := data[l.start..l.end];
    var words := f(content);
    assert Splits(f);
    if 0 < maxWords < |words| then exists i | i in SliceLeaf(content, words, maxWords) ::
      r == Range(l.start + i.start, l.start + i.end)
    else r == l
  }

  /** The leaves of the new tree are the leaves that were small enough and the slices of the others, whatever the depth
      at which they lie. */
  lemma {:induction false} OversizedLeavesAreSliced(data: seq<char>, f: Splitter, maxWords: int, t: Tree, r: Range)
    requires InText(data, t)
    ensures IsLeaf(SplitOversized(data, f, maxWords, t), r) <==>
      exists l :: IsLeaf(t, l) && PieceOf(data, f, maxWords, l, r)
    decreases t, 0
  {
    hide PieceOf;
    if t.kids == [] {
      LeafIsSliced(data, f, maxWords, t, r);
    } else {
      EachIsSliced(data, f, maxWords, t.kids, r);
      NewKids(data, f, maxWords, t, r);
      hide SplitOversized;
      if l :| IsLeaf(t, l) && PieceOf(data, f, maxWords, l, r) { assert AnyLeaf(t.kids, l); }
      if l :| AnyLeaf(t.kids, l) && PieceOf(data, f, maxWords, l, r) { assert IsLeaf(t, l); }
    }
  }

  lemma NewKids(data: seq<char>, f: Splitter, maxWords: int, t: Tree, r: Range)
    requires InText(data, t) && t.kids != []
    ensures IsLeaf(SplitOversized(data, f, maxWords, t), r) <==> AnyLeaf(SplitEach(data, f, maxWords, t.kids), r)
  {
    var us := SplitEach(data, f, maxWords, t.kids);
    assert SplitOversized(data, f, maxWords, t) == t.(kids := us);
  }

  lemma LeafIsSliced(data: seq<char>, f: Splitter, maxWords: int, t: Tree, r: Range)
    requires InText(data, t) && t.kids == []
    ensures IsLeaf(SplitOversized(data, f, maxWords, t), r) <==> PieceOf(data, f, maxWords, Range(t.start, t.end), r)
  {
    var u := SplitOversized(data, f, maxWords, t);
    hide SliceLeaf, CutsLines, Packed, Tile;
    var content := data[t.start..t.end];
    assert Splits(f);
    var words := f(content);
    assert u.start == t.start && u.end == t.end;
    var rs := Shift(SliceLeaf(content, words, maxWords), t.start);
    LeavesAre(rs, r);
    IsSliced(content, words, maxWords);
    hide SplitOversized;
    assert IsLeaf(u, r) <==> if rs == [] then r == Range(t.start, t.end) else AnyLeaf(u.kids, r);
  }

  lemma IsSliced(content: seq<char>, words: seq<Word>, maxWords: int)
    requires Spans(words, |content|)
    ensures SliceLeaf(content, words, maxWords) != [] <==> 0 < maxWords < |words|
  {
    hide Slices, CutsLines, Packed;
    if 0 < maxWords < |words| {
      assert words[0].end < |content|;
      SliceLeafCorrect(content, words, maxWords);
    }
  }

  lemma {:induction false} LeavesAre(rs: seq<Range>, r: Range)
    ensures AnyLeaf(Leaves(rs), r) <==> r in rs
  {
    if rs != [] {
      LeavesAre(rs[1..], r);
      AnyLeafOf(Leaf(rs[0]), Leaves(rs[1..]), r);
    }
  }

  lemma AnyLeafOf(t: Tree, ts: seq<Tree>, r: Range)
    ensures AnyLeaf([t] + ts, r) <==> IsLeaf(t, r) || AnyLeaf(ts, r)
  {
    assert forall u :: u in [t] + ts <==> u == t || u in ts;
  }

  lemma {:induction false} EachIsSliced(data: seq<char>, f: Splitter, maxWords: int, ts: seq<Tree>, r: Range)
    requires forall t | t in ts :: InText(data, t)
    ensures AnyLeaf(SplitEach(data, f, maxWords, ts), r) <==>
      exists l :: AnyLeaf(ts, l) && PieceOf(data, f, maxWords, l, r)
    decreases ts, 1
  {
    hide PieceOf, IsLeaf, AnyLeaf;
    if ts == [] {
      NoLeaf();
    } else {
      OversizedLeavesAreSliced(data, f, maxWords, ts[0], r);
      EachIsSliced(data, f, maxWords, ts[1..], r);
      AnyLeafOf(SplitOversized(data, f, maxWords, ts[0]), SplitEach(data, f, maxWords, ts[1..]), r);
      forall l ensures AnyLeaf(ts, l) <==> IsLeaf(ts[0], l) || AnyLeaf(ts[1..], l) {
        assert [ts[0]] + ts[1..] == ts;
        AnyLeafOf(ts[0], ts[1..], l);
      }
    }
  }

  lemma NoLeaf()
    ensures forall r :: !AnyLeaf([], r)
  {
  }
}
