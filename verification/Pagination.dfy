/** ingest/manager.go: searching page by page. No state is kept between two calls: a page is rebuilt from
    the cursor of the one before it. */
module Pagination {
  import O = Order
  import opened Filters
  import opened Canonical

  /** A source as text, and the same without its fragment. */
  datatype Url = Url(text: string, base: string)

  datatype Hit = Hit(source: Url, score: real)

  /** A decoded cursor, the empty one, or bytes that do not decode. */
  datatype Cursor = Start | Garbled | At(source: string, score: real, offset: int, filter: string)

  datatype Options = Options(maxResults: int, filter: Filter, cursor: Cursor, pool: int)

  datatype Error = InvalidFilterKey | InvalidCursor | CursorFilterMismatch | NegativeOffset

  datatype Page = Page(hits: seq<Hit>, next: Cursor)

  datatype Result = Ok(page: Page) | Failed(error: Error)

  /** A corpus that does not change: one ranking for the query, the metadata of the documents, and whether
      the index pushes filters down. hash is the truncated sha256 of a filter's encoding. */
  datatype World = World(
    printer: Print,
    hash: string -> string,
    ranking: seq<Hit>,
    metadata: map<string, Metadata>,
    pushDown: bool)

  const DEFAULT_POOL := 100
  const FETCH_FACTOR := 3
  const FETCH_GROWTH := 3
  const MAX_FETCH := 500

  function Min(a: int, b: int): int { if a < b then a else b }
  function Max(a: int, b: int): int { if a < b then b else a }

  function FirstN<T>(s: seq<T>, n: int): seq<T> { if n <= 0 then [] else if n < |s| then s[..n] else s }

  /** The fragment names a section; the document is the rest. */
  function SourceKey(h: Hit): string { h.source.base }

  predicate Verdict(w: World, f: Filter, key: string) {
    Matches(w.printer.lib, f, if key in w.metadata then w.metadata[key] else map[])
  }

  function Kept(w: World, f: Filter, hits: seq<Hit>): seq<Hit> {
    O.Filter(h => Verdict(w, f, SourceKey(h)), hits)
  }

  /** index.Search and index.SearchFiltered */
  function IndexSearch(w: World, limit: int): seq<Hit> { FirstN(w.ranking, limit) }

  function IndexSearchFiltered(w: World, f: Filter, limit: int): seq<Hit> { FirstN(Kept(w, f, w.ranking), limit) }

  function CandidateWindow(target: int, factor: int): int {
    if target <= 0 then 0
    else if target > MAX_FETCH then MAX_FETCH
    else Min(target * factor, MAX_FETCH)
  }

  /** The over-fetch loop from one window on. */
  function Grow(w: World, f: Filter, target: int, fetch: int): seq<Hit>
    requires target > 0 ==> fetch > 0
    decreases MAX_FETCH - fetch
  {
    var results := IndexSearch(w, fetch);
    var kept := Kept(w, f, results);
    if |kept| >= target || |results| < fetch || fetch >= MAX_FETCH then kept
    else Grow(w, f, target, Min(fetch * FETCH_GROWTH, MAX_FETCH))
  }

  function Candidates(w: World, o: Options, target: int): seq<Hit> {
    if w.pushDown && o.filter != [] then
      IndexSearchFiltered(w, o.filter, Min(if o.pool > 0 then o.pool else target, MAX_FETCH))
    else if o.pool > 0 then Kept(w, o.filter, IndexSearch(w, o.pool))
    else if o.filter == [] then
      IndexSearch(w, Min(if target > 1 then Max(target, Min(DEFAULT_POOL, MAX_FETCH)) else target, MAX_FETCH))
    else Grow(w, o.filter, target, CandidateWindow(target, FETCH_FACTOR))
  }

  function Fingerprint(w: World, f: Filter): string {
    if f == [] then "" else w.hash(CanonicalBytes(w.printer, f).value)
  }

  datatype Resume = Skip(n: int) | Refused(error: Error)

  function ResumeCursor(c: Cursor, fingerprint: string): Resume {
    match c
    case Start => Skip(0)
    case Garbled => Refused(InvalidCursor)
    case At(_, _, offset, filter) =>
      if filter != fingerprint then Refused(CursorFilterMismatch)
      else if offset < 0 then Refused(NegativeOffset)
      else Skip(offset + 1)
  }

  /** The position after the first result carrying the anchored source. */
  function After(results: seq<Hit>, source: string): (n: nat)
    ensures n <= |results|
  {
    if results == [] then 0
    else if results[0].source.text == source then 1
    else 1 + After(results[1..], source)
  }

  function PageSize(o: Options): int { if o.maxResults <= 0 then 5 else o.maxResults }

  function EncodeCursor(h: Hit, offset: int, fingerprint: string): Cursor {
    At(h.source.text, h.score, offset, fingerprint)
  }

  function Paginate(results: seq<Hit>, c: Cursor, pageSize: int, fingerprint: string): Page
    requires pageSize > 0
  {
    PageFrom(results, if c.At? then After(results, c.source) else 0, pageSize, fingerprint)
  }

  function PageFrom(results: seq<Hit>, start: nat, pageSize: int, fingerprint: string): Page
    requires pageSize > 0
  {
    if start >= |results| then Page([], Start)
    else
      var end := Min(start + pageSize, |results|);
      var page := results[start..end];
      Page(page,
        if end < |results| && |page| > 0 then EncodeCursor(page[|page| - 1], end - 1, fingerprint) else Start)
  }

  function SearchPage(w: World, o: Options): Result {
    if !Valid(o.filter) then Failed(InvalidFilterKey)
    else
      var fp := Fingerprint(w, o.filter);
      match ResumeCursor(o.cursor, fp)
      case Refused(e) => Failed(e)
      case Skip(n) => Ok(Paginate(Candidates(w, o, n + PageSize(o) + 1), o.cursor, PageSize(o), fp))
  }

  // ---- the manager as the source writes it ----

  method Select(w: World, f: Filter, verdicts: map<string, bool>, results: seq<Hit>) returns (kept: seq<Hit>)
    requires forall k | k in verdicts :: verdicts[k] == Verdict(w, f, k)
    requires forall h | h in results :: SourceKey(h) in verdicts
    ensures kept == Kept(w, f, results)
  {
    kept := [];
    for i := 0 to |results|
      invariant kept == Kept(w, f, results[..i])
    {
      KeptSnoc(w, f, results, i);
      assert results[i] in results;
      if verdicts[SourceKey(results[i])] { kept := kept + [results[i]]; }
    }
    assert results[..|results|] == results;
  }

  predicate NoRepeat(keys: seq<string>) { forall i, j | 0 <= i < j < |keys| :: keys[i] != keys[j] }

  lemma NoRepeatConcat(a: seq<string>, b: seq<string>)
    requires NoRepeat(a) && NoRepeat(b) && forall k | k in b :: k !in a
    ensures NoRepeat(a + b)
  {
    forall i, j | 0 <= i < j < |a + b| ensures (a + b)[i] != (a + b)[j] {
      assert i < |a| <= j ==> a[i] in a && b[j - |a|] in b;
    }
  }

  /** Judges documents against one filter, each at most once: judged lists the documents evaluated, in order. */
  class MetadataFilter {
    const w: World
    const f: Filter
    var verdicts: map<string, bool>
    ghost var judged: seq<string>

    constructor (w: World, f: Filter)
      ensures this.w == w && this.f == f && Consistent()
    {
      this.w, this.f, verdicts, judged := w, f, map[], [];
    }

    ghost predicate Consistent()
      reads this
    {
      && (forall k | k in verdicts :: verdicts[k] == Verdict(w, f, k))
      && NoRepeat(judged) && forall k :: k in judged <==> k in verdicts
    }

    method Apply(results: seq<Hit>) returns (kept: seq<Hit>)
      requires Consistent()
      modifies this
      ensures Consistent()
      ensures kept == Kept(w, f, results)
      ensures verdicts.Keys == old(verdicts.Keys) + KeysOf(results)
      ensures old(judged) <= judged
    {
      var unjudged := Queue(results);
      NoRepeatConcat(judged, unjudged);
      Judge(unjudged);
      assert forall h | h in results :: SourceKey(h) in KeysOf(results);
      kept := Select(w, f, verdicts, results);
    }

    /** Marks the documents not judged yet and lists each of them once. */
    method Queue(results: seq<Hit>) returns (unjudged: seq<string>)
      requires Consistent()
      modifies `verdicts
      ensures NoRepeat(unjudged) && forall k :: k in unjudged <==> k in KeysOf(results) && k !in old(verdicts)
      ensures verdicts.Keys == old(verdicts.Keys) + KeysOf(results)
      ensures forall k | k in verdicts && k !in unjudged :: verdicts[k] == Verdict(w, f, k)
    {
      unjudged := [];
      for i := 0 to |results|
        invariant verdicts.Keys == old(verdicts.Keys) + KeysOf(results[..i])
        invariant NoRepeat(unjudged) && forall k :: k in unjudged <==> k in verdicts && k !in old(verdicts)
        invariant forall k | k in verdicts && k !in unjudged :: verdicts[k] == Verdict(w, f, k)
      {
        assert results[..i + 1] == results[..i] + [results[i]];
        assert KeysOf(results[..i + 1]) == KeysOf(results[..i]) + {SourceKey(results[i])};
        var key := SourceKey(results[i]);
        if key !in verdicts {
          verdicts := verdicts[key := false];
          unjudged := unjudged + [key];
        }
      }
      assert results[..|results|] == results;
    }

    method Judge(unjudged: seq<string>)
      requires NoRepeat(judged + unjudged) && forall k :: k in judged + unjudged <==> k in verdicts
      requires forall k | k in verdicts && k !in unjudged :: verdicts[k] == Verdict(w, f, k)
      modifies this
      ensures verdicts.Keys == old(verdicts.Keys) && Consistent() && judged == old(judged) + unjudged
    {
      hide NoRepeat, Verdict;
      for i := 0 to |unjudged|
        invariant verdicts.Keys == old(verdicts.Keys) && judged == old(judged) + unjudged[..i]
        invariant forall k | k in verdicts && k !in unjudged[i..] :: verdicts[k] == Verdict(w, f, k)
      {
        assert unjudged[i..] == [unjudged[i]] + unjudged[i + 1..];
        verdicts, judged := verdicts[unjudged[i] := Verdict(w, f, unjudged[i])], judged + [unjudged[i]];
        assert unjudged[..i + 1] == unjudged[..i] + [unjudged[i]];
      }
      assert unjudged[..|unjudged|] == unjudged;
    }
  }

  function KeysOf(hits: seq<Hit>): set<string> { set h | h in hits :: SourceKey(h) }

  lemma FilterConcat<T>(p: T -> bool, a: seq<T>, b: seq<T>)
    ensures O.Filter(p, a + b) == O.Filter(p, a) + O.Filter(p, b)
  {
    if a == [] {
      assert a + b == b;
    } else {
      assert (a + b)[0] == a[0] && (a + b)[1..] == a[1..] + b;
      FilterConcat(p, a[1..], b);
    }
  }

  lemma KeptSnoc(w: World, f: Filter, hits: seq<Hit>, i: nat)
    requires i < |hits|
    ensures Kept(w, f, hits[..i + 1])
         == Kept(w, f, hits[..i]) + if Verdict(w, f, SourceKey(hits[i])) then [hits[i]] else []
  {
    var p := (h: Hit) => Verdict(w, f, SourceKey(h));
    assert hits[..i + 1] == hits[..i] + [hits[i]];
    FilterConcat(p, hits[..i], [hits[i]]);
  }

  lemma {:induction false} KeptUnfiltered(w: World, hits: seq<Hit>)
    ensures Kept(w, [], hits) == hits
  {
    if hits != [] { KeptUnfiltered(w, hits[1..]); }
  }

  method SearchCandidates(w: World, o: Options, target: int) returns (hits: seq<Hit>)
    ensures hits == Candidates(w, o, target)
  {
    if w.pushDown && o.filter != [] {
      var limit := target;
      if o.pool > 0 { limit := o.pool; }
      return IndexSearchFiltered(w, o.filter, Min(limit, MAX_FETCH));
    }
    if o.pool > 0 {
      var results := IndexSearch(w, o.pool);
      if o.filter == [] {
        KeptUnfiltered(w, results);
        return results;
      }
      var filter := new MetadataFilter(w, o.filter);
      hits := filter.Apply(results);
      return;
    }
    if o.filter == [] {
      var window := target;
      if target > 1 { window := Max(window, Min(DEFAULT_POOL, MAX_FETCH)); }
      return IndexSearch(w, Min(window, MAX_FETCH));
    }
    var filter := new MetadataFilter(w, o.filter);
    var fetch := CandidateWindow(target, FETCH_FACTOR);
    while true
      invariant filter.Consistent() && filter.w == w && filter.f == o.filter && fresh(filter)
      invariant target > 0 ==> fetch > 0
      invariant Grow(w, o.filter, target, fetch) == Candidates(w, o, target)
      decreases MAX_FETCH - fetch
    {
      var results := IndexSearch(w, fetch);
      hits := filter.Apply(results);
      if |hits| >= target || |results| < fetch || fetch >= MAX_FETCH { return; }
      fetch := Min(fetch * FETCH_GROWTH, MAX_FETCH);
    }
  }

  method PaginateResults(results: seq<Hit>, c: Cursor, pageSize: int, fingerprint: string) returns (page: Page)
    requires pageSize > 0
    ensures page == Paginate(results, c, pageSize, fingerprint)
    ensures !c.At? ==> PageIs(page, results, 0, pageSize, fingerprint)
    ensures c.At? && (forall h | h in results :: h.source.text != c.source) ==> page == Page([], Start)
    ensures forall p: nat | c.At? && Anchors(results, p, c.source) ::
      PageIs(page, results, p + 1, pageSize, fingerprint)
  {
    PageFollowsAnchor(results, c, pageSize, fingerprint);
    var start := 0;
    if c.At? {
      start := |results|;
      for i := 0 to |results|
        invariant start == |results|
        invariant After(results, c.source) == i + After(results[i..], c.source)
      {
        if results[i].source.text == c.source {
          start := i + 1;
          break;
        }
      }
    }
    if start >= |results| { return Page([], Start); }
    var end := start + pageSize;
    if end > |results| { end := |results|; }
    var hits := results[start..end];
    var next := Start;
    if end < |results| && |hits| > 0 {
      next := EncodeCursor(hits[|hits| - 1], end - 1, fingerprint);
    }
    page := Page(hits, next);
  }

  /** Result p is the first that carries the source. */
  predicate Anchors(results: seq<Hit>, p: nat, source: string) {
    p < |results| && results[p].source.text == source && forall h | h in results[..p] :: h.source.text != source
  }

  /** The page is the next pageSize results from start on; its cursor names the last of them, unless nothing follows. */
  predicate PageIs(page: Page, results: seq<Hit>, start: nat, pageSize: int, fingerprint: string)
    requires pageSize > 0
  {
    && start <= |results| && page.hits == results[start..Min(start + pageSize, |results|)]
    && page.next == if start + pageSize >= |results| then Start
                    else At(results[start + pageSize - 1].source.text, results[start + pageSize - 1].score,
                            start + pageSize - 1, fingerprint)
  }

  lemma HeadOfPrefix(results: seq<Hit>, p: nat)
    requires p <= |results|
    ensures p > 0 ==> results[0] in results[..p]
  {
    if p > 0 { assert results[..p][0] == results[0]; }
  }

  lemma {:induction false} AfterIs(results: seq<Hit>, source: string)
    ensures (forall h | h in results :: h.source.text != source) ==> After(results, source) == |results|
    ensures forall p: nat | Anchors(results, p, source) :: After(results, source) == p + 1
  {
    if results != [] {
      AfterIs(results[1..], source);
      if results[0].source.text == source {
        assert results[0] in results;
        forall p: nat | Anchors(results, p, source) ensures p == 0 {
          HeadOfPrefix(results, p);
        }
      } else {
        forall p: nat | Anchors(results, p, source) ensures p > 0 && Anchors(results[1..], p - 1, source) {
          assert p > 0;
          assert results[..p] == [results[0]] + results[1..][..p - 1];
        }
      }
    }
  }

  /** A page starts right after the first result that carries the cursor's source; when none does, because the document
      went, it is empty and there is no next one. */
  lemma PageFollowsAnchor(results: seq<Hit>, c: Cursor, pageSize: int, fingerprint: string)
    requires pageSize > 0
    ensures var page := Paginate(results, c, pageSize, fingerprint);
      && (!c.At? ==> PageIs(page, results, 0, pageSize, fingerprint))
      && (c.At? && (forall h | h in results :: h.source.text != c.source) ==> page == Page([], Start))
      && forall p: nat | c.At? && Anchors(results, p, c.source) :: PageIs(page, results, p + 1, pageSize, fingerprint)
  {
    if c.At? {
      AfterIs(results, c.source);
      hide After, Anchors;
    }
  }

  /** What a search answers: an error for an invalid filter, a cursor that does not decode, one issued for another
      filter, one with a negative offset, in this order; otherwise a page of the results gathered. */
  lemma SearchAnswers(w: World, o: Options)
    ensures var r, fp := SearchPage(w, o), Fingerprint(w, o.filter);
      var size := if o.maxResults <= 0 then 5 else o.maxResults;
      if !Valid(o.filter) then r == Failed(InvalidFilterKey)
      else match o.cursor
        case Garbled => r == Failed(InvalidCursor)
        case Start => r.Ok? && PageIs(r.page, Candidates(w, o, size + 1), 0, size, fp)
        case At(source, _, offset, filter) =>
          if filter != fp then r == Failed(CursorFilterMismatch)
          else if offset < 0 then r == Failed(NegativeOffset)
          else
            var results := Candidates(w, o, offset + 1 + size + 1);
            && r.Ok?
            && ((forall h | h in results :: h.source.text != source) ==> r.page == Page([], Start))
            && forall p: nat | Anchors(results, p, source) :: PageIs(r.page, results, p + 1, size, fp)
  {
    hide Candidates, Fingerprint, Valid, Paginate;
    var fp, size := Fingerprint(w, o.filter), PageSize(o);
    match o.cursor
    case Start => PageFollowsAnchor(Candidates(w, o, size + 1), o.cursor, size, fp);
    case At(_, _, offset, _) =>
      if offset >= 0 { PageFollowsAnchor(Candidates(w, o, offset + 1 + size + 1), o.cursor, size, fp); }
    case _ =>
  }

  method Search(w: World, o: Options) returns (r: Result)
    ensures r == SearchPage(w, o)
  {
    hide Candidates, Fingerprint, Paginate, Valid;
    if !Valid(o.filter) { return Failed(InvalidFilterKey); }
    var pageSize := o.maxResults;
    if pageSize <= 0 { pageSize := 5; }
    var fingerprint := Fingerprint(w, o.filter);
    match ResumeCursor(o.cursor, fingerprint) {
      case Refused(e) => r := Failed(e);
      case Skip(n) =>
        var results := SearchCandidates(w, o, n + pageSize + 1);
        var page := PaginateResults(results, o.cursor, pageSize, fingerprint);
        r := Ok(page);
    }
  }

  // ---- a whole walk ----

  /** What the walk can ever return: the matches among the first 500 entries, or among the explicit pool;
      an index that filters for itself reaches the first 500 matches. */
  function Universe(w: World, f: Filter, pool: int): seq<Hit> {
    if w.pushDown && f != [] then IndexSearchFiltered(w, f, if pool > 0 then Min(pool, MAX_FETCH) else MAX_FETCH)
    else Kept(w, f, IndexSearch(w, if pool > 0 then pool else MAX_FETCH))
  }

  ghost predicate DistinctSources(hits: seq<Hit>) {
    forall i, j | 0 <= i < j < |hits| :: hits[i].source.text != hits[j].source.text
  }

  lemma KeptPrefix(w: World, f: Filter, hits: seq<Hit>, m: int, n: int)
    requires m <= n
    ensures Kept(w, f, FirstN(hits, m)) <= Kept(w, f, FirstN(hits, n))
  {
    var a, b := FirstN(hits, m), FirstN(hits, n);
    assert b == a + b[|a|..];
    FilterConcat((h: Hit) => Verdict(w, f, SourceKey(h)), a, b[|a|..]);
  }

  lemma {:induction false} KeptDistinct(w: World, f: Filter, hits: seq<Hit>)
    requires DistinctSources(hits)
    ensures DistinctSources(Kept(w, f, hits))
    ensures forall h | h in Kept(w, f, hits) :: h in hits
  {
    if hits != [] {
      var rest := hits[1..];
      assert DistinctSources(rest);
      KeptDistinct(w, f, rest);
      var k := Kept(w, f, rest);
      forall j | 0 <= j < |k| ensures hits[0].source.text != k[j].source.text {
        assert k[j] in rest;
        var i :| 0 <= i < |rest| && rest[i] == k[j];
        assert hits[i + 1] == k[j];
      }
    }
  }

  /** The window grows until it holds enough matches or everything the bound allows. */
  lemma {:induction false} GrowCovers(w: World, f: Filter, target: int, fetch: int)
    requires target > 0 && 0 < fetch <= MAX_FETCH
    ensures var all := Kept(w, f, IndexSearch(w, MAX_FETCH));
      Grow(w, f, target, fetch) <= all
      && (|Grow(w, f, target, fetch)| >= target || Grow(w, f, target, fetch) == all)
    decreases MAX_FETCH - fetch
  {
    KeptPrefix(w, f, w.ranking, fetch, MAX_FETCH);
    var results := IndexSearch(w, fetch);
    if |results| < fetch { assert results == w.ranking == IndexSearch(w, MAX_FETCH); }
    if !(|Kept(w, f, results)| >= target || |results| < fetch || fetch >= MAX_FETCH) {
      GrowCovers(w, f, target, Min(fetch * FETCH_GROWTH, MAX_FETCH));
    }
  }

  /** Every page is cut from an initial part of the same list, long enough for the page and one more. */
  lemma CandidatesCover(w: World, o: Options, target: int)
    requires target > 1
    ensures Candidates(w, o, target) <= Universe(w, o.filter, o.pool)
    ensures |Candidates(w, o, target)| >= target || Candidates(w, o, target) == Universe(w, o.filter, o.pool)
  {
    if w.pushDown && o.filter != [] {
    } else if o.pool > 0 {
    } else if o.filter == [] {
      KeptUnfiltered(w, IndexSearch(w, MAX_FETCH));
    } else {
      GrowCovers(w, o.filter, target, CandidateWindow(target, FETCH_FACTOR));
    }
  }

  lemma UniverseDistinct(w: World, o: Options)
    requires DistinctSources(w.ranking)
    ensures DistinctSources(Universe(w, o.filter, o.pool))
  {
    KeptDistinct(w, o.filter, w.ranking);
    KeptDistinct(w, o.filter, IndexSearch(w, if o.pool > 0 then o.pool else MAX_FETCH));
  }

  lemma {:induction false} AfterAnchor(results: seq<Hit>, i: nat)
    requires i < |results| && DistinctSources(results)
    ensures After(results, results[i].source.text) == i + 1
  {
    if i > 0 {
      assert results[1..][i - 1] == results[i];
      assert DistinctSources(results[1..]);
      AfterAnchor(results[1..], i - 1);
    }
  }

  /** The cursor a walk holds once its pages have delivered the first k results. */
  predicate Position(u: seq<Hit>, fingerprint: string, c: Cursor, k: nat) {
    if k == 0 then c == Start else k <= |u| && c == EncodeCursor(u[k - 1], k - 1, fingerprint)
  }

  predicate Placed(w: World, o: Options, k: nat) {
    Valid(o.filter) && Position(Universe(w, o.filter, o.pool), Fingerprint(w, o.filter), o.cursor, k)
  }

  /** One page: the results after the cursor, and the cursor after them unless they are the last. */
  lemma PageAt(w: World, o: Options, k: nat)
    requires DistinctSources(w.ranking) && Placed(w, o, k)
    ensures k <= |Universe(w, o.filter, o.pool)|
    ensures var u, end := Universe(w, o.filter, o.pool), Min(k + PageSize(o), |Universe(w, o.filter, o.pool)|);
      && SearchPage(w, o).Ok?
      && SearchPage(w, o).page.hits == u[k..end]
      && if end < |u|
         then k < end && SearchPage(w, o).page.next != Start && Placed(w, o.(cursor := SearchPage(w, o).page.next), end)
         else SearchPage(w, o).page.next == Start
  {
    hide Universe, Candidates, SearchPage, Fingerprint, DistinctSources, PageFrom;
    var u, size := Universe(w, o.filter, o.pool), PageSize(o);
    var c := Candidates(w, o, k + size + 1);
    CandidatesCover(w, o, k + size + 1);
    UniverseDistinct(w, o);
    SearchAt(w, o, k, u, c);
    Cut(u, c, k, size, Fingerprint(w, o.filter));
  }

  lemma SearchAt(w: World, o: Options, k: nat, u: seq<Hit>, c: seq<Hit>)
    requires Valid(o.filter) && k <= |u| && c == Candidates(w, o, k + PageSize(o) + 1)
    requires o.cursor == if k == 0 then Start else EncodeCursor(u[k - 1], k - 1, Fingerprint(w, o.filter))
    requires c <= u && (|c| >= k || c == u) && DistinctSources(u)
    ensures SearchPage(w, o) == Ok(PageFrom(c, k, PageSize(o), Fingerprint(w, o.filter)))
  {
    hide Candidates, Fingerprint, DistinctSources, PageFrom, After;
    assert ResumeCursor(o.cursor, Fingerprint(w, o.filter)) == Skip(k);
    if k > 0 { FindAnchor(u, c, k); }
  }

  lemma FindAnchor(u: seq<Hit>, c: seq<Hit>, k: nat)
    requires c <= u && 0 < k <= |c| && DistinctSources(u)
    ensures After(c, u[k - 1].source.text) == k
  {
    assert forall i | 0 <= i < |c| :: c[i] == u[i];
    AfterAnchor(c, k - 1);
  }

  /** Cutting a page out of enough candidates is cutting it out of the whole list. */
  lemma Cut(u: seq<Hit>, c: seq<Hit>, k: nat, size: int, fp: string)
    requires size > 0 && c <= u && (|c| >= k + size + 1 || c == u) && k <= |u|
    ensures var end := Min(k + size, |u|);
      PageFrom(c, k, size, fp) == Page(u[k..end], if end < |u| then EncodeCursor(u[end - 1], end - 1, fp) else Start)
  {
    var end := Min(k + size, |c|);
    assert end == Min(k + size, |u|) && (end < |c| <==> end < |u|);
    assert c[k..end] == u[k..end];
    if k < |c| { assert c[k..end][end - k - 1] == u[end - 1]; }
  }

  /** Every result of a whole walk, following NextCursor from the first page until it is empty. */
  function Walk(w: World, o: Options, ghost k: nat): seq<Hit>
    requires DistinctSources(w.ranking) && Placed(w, o, k)
    decreases |Universe(w, o.filter, o.pool)| - k
  {
    PageAt(w, o, k);
    var page := SearchPage(w, o).page;
    if page.next == Start then page.hits
    else page.hits + Walk(w, o.(cursor := page.next), Min(k + PageSize(o), |Universe(w, o.filter, o.pool)|))
  }

  lemma WalkStep(w: World, o: Options, k: nat, page: Page, end: nat, rest: seq<Hit>)
    requires DistinctSources(w.ranking) && Placed(w, o, k)
    requires SearchPage(w, o) == Ok(page) && end == Min(k + PageSize(o), |Universe(w, o.filter, o.pool)|)
    requires page.next != Start ==>
      k < end && Placed(w, o.(cursor := page.next), end) && Walk(w, o.(cursor := page.next), end) == rest
    ensures Walk(w, o, k) == page.hits + if page.next == Start then [] else rest
  {
  }

  lemma {:induction false} WalkRest(w: World, o: Options, k: nat)
    requires DistinctSources(w.ranking) && Placed(w, o, k)
    ensures k <= |Universe(w, o.filter, o.pool)|
    ensures Walk(w, o, k) == Universe(w, o.filter, o.pool)[k..]
    decreases |Universe(w, o.filter, o.pool)| - k
  {
    hide Universe, Placed, DistinctSources, SearchPage, Walk;
    PageAt(w, o, k);
    var u, page := Universe(w, o.filter, o.pool), SearchPage(w, o).page;
    var end := Min(k + PageSize(o), |u|);
    if end < |u| { WalkRest(w, o.(cursor := page.next), end); }
    WalkStep(w, o, k, page, end, u[end..]);
    assert u[k..end] + u[end..] == u[k..];
  }

  /** The pages of a walk are exactly the matching entries among those the search may reach, each once
      and in ranking order. */
  lemma WalkReturnsEveryMatchOnce(w: World, o: Options)
    requires Valid(o.filter) && DistinctSources(w.ranking) && o.cursor == Start
    ensures Walk(w, o, 0) == Universe(w, o.filter, o.pool)
    ensures DistinctSources(Walk(w, o, 0))
    ensures forall h | h in Walk(w, o, 0) :: h in w.ranking && Verdict(w, o.filter, SourceKey(h))
    ensures !w.pushDown && o.pool <= 0 ==>
      forall h | h in FirstN(w.ranking, MAX_FETCH) && Verdict(w, o.filter, SourceKey(h)) :: h in Walk(w, o, 0)
  {
    WalkRest(w, o, 0);
    UniverseDistinct(w, o);
    UniverseMembers(w, o);
  }

  lemma UniverseMembers(w: World, o: Options)
    ensures forall h | h in Universe(w, o.filter, o.pool) :: h in w.ranking && Verdict(w, o.filter, SourceKey(h))
    ensures !w.pushDown && o.pool <= 0 ==>
      forall h | h in FirstN(w.ranking, MAX_FETCH) && Verdict(w, o.filter, SourceKey(h)) ::
        h in Universe(w, o.filter, o.pool)
  {
    KeptExactly(w, o.filter, w.ranking);
    KeptExactly(w, o.filter, IndexSearch(w, if o.pool > 0 then o.pool else MAX_FETCH));
  }

  lemma {:induction false} KeptExactly(w: World, f: Filter, hits: seq<Hit>)
    ensures forall h :: h in Kept(w, f, hits) <==> h in hits && Verdict(w, f, SourceKey(h))
  {
    if hits != [] { KeptExactly(w, f, hits[1..]); }
  }

  // ---- what a walk returns, told of positions in the ranking ----

  /** The filter holds of the metadata of the hit's document, which a fragment of the source does not change; a document
      without metadata has none of the keys. */
  predicate Selected(w: World, f: Filter, h: Hit) {
    && (h.source.base in w.metadata ==> Matches(w.printer.lib, f, w.metadata[h.source.base]))
    && (h.source.base !in w.metadata ==> Matches(w.printer.lib, f, map[]))
  }

  lemma SelectedIsKept(w: World, f: Filter, hits: seq<Hit>)
    ensures forall h :: h in Kept(w, f, hits) <==> h in hits && Selected(w, f, h)
    ensures O.Subsequence(Kept(w, f, hits), hits)
  {
    KeptExactly(w, f, hits);
    O.FilterSubsequence((h: Hit) => Verdict(w, f, SourceKey(h)), hits);
    hide Matches;
  }

  lemma {:induction false} PrefixSubsequence(a: seq<Hit>, b: seq<Hit>, n: nat)
    requires n <= |b| && O.Subsequence(a, b[..n])
    ensures O.Subsequence(a, b)
  {
    if a != [] && b != [] && n > 0 {
      assert b[..n][1..] == b[1..][..n - 1];
      if O.Subsequence(a, b[..n][1..]) { PrefixSubsequence(a, b[1..], n - 1); }
      else { PrefixSubsequence(a[1..], b[1..], n - 1); }
    }
  }

  lemma AmongFirst(hits: seq<Hit>, n: nat, i: nat)
    requires DistinctSources(hits) && i < |hits|
    ensures hits[i] in hits[..if n < |hits| then n else |hits|] <==> i < n
  {
    var m := if n < |hits| then n else |hits|;
    if i < n { assert hits[..m][i] == hits[i]; }
  }

  /** An index that does not filter: a walk without an explicit pool returns, in ranking order, exactly the results
      among the first 500 whose document the filter selects; with a pool, among as many as the pool says. */
  lemma WalkIsFiltered(w: World, o: Options)
    requires Valid(o.filter) && DistinctSources(w.ranking) && o.cursor == Start && (!w.pushDown || o.filter == [])
    ensures O.Subsequence(Walk(w, o, 0), w.ranking)
    ensures forall i | 0 <= i < |w.ranking| :: w.ranking[i] in Walk(w, o, 0) <==>
      i < (if o.pool > 0 then o.pool else 500) && Selected(w, o.filter, w.ranking[i])
  {
    var reach := if o.pool > 0 then o.pool else 500;
    var n := if reach < |w.ranking| then reach else |w.ranking|;
    WalkReturnsEveryMatchOnce(w, o);
    assert IndexSearch(w, reach) == w.ranking[..n];
    SelectedIsKept(w, o.filter, w.ranking[..n]);
    PrefixSubsequence(Kept(w, o.filter, w.ranking[..n]), w.ranking, n);
    hide Selected, Valid, Walk, Kept, O.Subsequence;
    forall i | 0 <= i < |w.ranking| ensures w.ranking[i] in w.ranking[..n] <==> i < reach {
      AmongFirst(w.ranking, reach, i);
    }
  }

  /** An index that filters: the walk returns, in ranking order, the first selected results, as many as 500 or a smaller
      pool says, or all there are. */
  lemma PushedWalkIsFiltered(w: World, o: Options)
    requires Valid(o.filter) && DistinctSources(w.ranking) && o.cursor == Start && w.pushDown && o.filter != []
    ensures forall h | h in Walk(w, o, 0) :: h in w.ranking && Selected(w, o.filter, h)
    ensures O.Subsequence(Walk(w, o, 0), w.ranking)
    ensures var reach := if 0 < o.pool < 500 then o.pool else 500;
      |Walk(w, o, 0)| <= reach
      && (|Walk(w, o, 0)| < reach ==> forall h | h in w.ranking && Selected(w, o.filter, h) :: h in Walk(w, o, 0))
  {
    var reach := if 0 < o.pool < 500 then o.pool else 500;
    var all := Kept(w, o.filter, w.ranking);
    WalkReturnsEveryMatchOnce(w, o);
    assert Walk(w, o, 0) == FirstN(all, reach);
    SelectedIsKept(w, o.filter, w.ranking);
    StartOfSubsequence(all, w.ranking, if reach < |all| then reach else |all|);
    hide Selected, Valid, Walk, Kept, O.Subsequence;
  }

  lemma {:induction false} StartOfSubsequence(a: seq<Hit>, b: seq<Hit>, n: nat)
    requires n <= |a| && O.Subsequence(a, b)
    ensures O.Subsequence(a[..n], b)
    decreases b
  {
    if n > 0 {
      if O.Subsequence(a, b[1..]) {
        StartOfSubsequence(a, b[1..], n);
      } else {
        StartOfSubsequence(a[1..], b[1..], n - 1);
        assert a[..n][1..] == a[1..][..n - 1];
      }
    }
  }

  // ---- how far a search reads ----

  /** The window was too small: it was full, and did not hold enough. */
  predicate TooSmall(w: World, f: Filter, target: int, window: int) {
    window < 500 && |IndexSearch(w, window)| == window && |Kept(w, f, IndexSearch(w, window))| < target
  }

  /** Window n is the first, or three times one that was too small, and never above 500. */
  predicate Needed(w: World, f: Filter, target: int, first: int, n: int) {
    0 < n <= 500 && (n == first || exists m | 0 < m < n <= 3 * m :: TooSmall(w, f, target, m))
  }

  lemma {:induction false} GrowReads(w: World, f: Filter, target: int, first: int, fetch: int)
    requires target > 0 && Needed(w, f, target, first, fetch)
    ensures exists n | Needed(w, f, target, first, n) ::
      Grow(w, f, target, fetch) == Kept(w, f, IndexSearch(w, n)) && !TooSmall(w, f, target, n)
    decreases MAX_FETCH - fetch
  {
    hide Kept;
    if TooSmall(w, f, target, fetch) {
      var next := Min(fetch * FETCH_GROWTH, MAX_FETCH);
      assert 0 < fetch < next <= 3 * fetch;
      GrowReads(w, f, target, first, next);
    }
  }

  /** A filtered search reads no further than it must: three times what the page needs, and three times a window that
      did not suffice. */
  lemma SearchReads(w: World, o: Options, target: int)
    requires target > 0 && !w.pushDown && o.pool <= 0 && o.filter != []
    ensures exists n | Needed(w, o.filter, target, Min(3 * target, 500), n) ::
      Candidates(w, o, target) == Kept(w, o.filter, IndexSearch(w, n)) && !TooSmall(w, o.filter, target, n)
  {
    GrowReads(w, o.filter, target, Min(3 * target, 500), CandidateWindow(target, FETCH_FACTOR));
  }

  /** A filtering index never returns less: its walk starts with the walk filtered in Go, and is that walk
      when the ranking fits the candidate bound. */
  lemma PushDownWalksFurther(w: World, o: Options)
    requires Valid(o.filter) && DistinctSources(w.ranking) && o.cursor == Start && o.pool <= 0
    ensures var walked, pushed := Walk(w.(pushDown := false), o, 0), Walk(w.(pushDown := true), o, 0);
      walked <= pushed && (|w.ranking| <= MAX_FETCH ==> walked == pushed)
  {
    hide Walk, Verdict, Kept;
    var here, there := w.(pushDown := false), w.(pushDown := true);
    WalkReturnsEveryMatchOnce(here, o);
    WalkReturnsEveryMatchOnce(there, o);
    SameKept(here, there, o.filter, w.ranking);
    SameKept(here, there, o.filter, IndexSearch(w, MAX_FETCH));
    KeptPrefix(here, o.filter, w.ranking, MAX_FETCH, Max(MAX_FETCH, |w.ranking|));
    KeptShort(here, o.filter, IndexSearch(w, MAX_FETCH));
  }

  lemma {:induction false} SameKept(a: World, b: World, f: Filter, hits: seq<Hit>)
    requires b == a.(pushDown := b.pushDown)
    ensures Kept(a, f, hits) == Kept(b, f, hits)
  {
    if hits != [] { SameKept(a, b, f, hits[1..]); }
  }

  lemma {:induction false} KeptShort(w: World, f: Filter, hits: seq<Hit>)
    ensures |Kept(w, f, hits)| <= |hits|
  {
    if hits != [] { KeptShort(w, f, hits[1..]); }
  }

  /** A cursor resumes exactly under the filter it was issued for, rearranged in any way, unless encodings collide in
      the hash; and such filters select the same documents. */
  lemma CursorBindsFilter(w: World, f: Filter, g: Filter, issued: Cursor, meta: Metadata)
    requires PlainFilter(f) && PlainFilter(g)
    requires issued.At? && issued.filter == Fingerprint(w, f)
    requires forall b :: w.hash(b) != ""
    requires f != [] && g != [] &&
      w.hash(CanonicalBytes(w.printer, f).value) == w.hash(CanonicalBytes(w.printer, g).value)
      ==> CanonicalBytes(w.printer, f) == CanonicalBytes(w.printer, g)
    ensures ResumeCursor(issued, Fingerprint(w, g)).Skip? <==> RearrangedBags(w.printer, f, g) && issued.offset >= 0
    ensures ResumeCursor(issued, Fingerprint(w, g)).Skip? ==>
      (Matches(w.printer.lib, f, meta) <==> Matches(w.printer.lib, g, meta))
  {
    hide RearrangedBags, PlainFilter, Matches;
    EncodingExact(w.printer, f, g);
    if CanonicalBytes(w.printer, f) == CanonicalBytes(w.printer, g) { EncodingSound(w.printer, f, g, meta); }
  }
}
