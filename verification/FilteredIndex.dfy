/** index/postgres and index/sqlitevec as the filtering index of a search: what pagination takes for granted of such an
    index, proved of the two that compile filters to SQL. */
module FilteredIndex {
  import opened Wrappers
  import O = Order
  import opened Filters
  import Postgres
  import Sqlite
  import opened Pagination

  /** The metadata documents were indexed with, by document. */
  type Corpus = map<string, Metadata>

  /** The row of the document a ranked entry belongs to; a document that was given no metadata has none. */
  function RowOf(w: World, corpus: Corpus, h: Hit): Row {
    Store(w.printer.lib, if SourceKey(h) in corpus then corpus[SourceKey(h)] else map[])
  }

  /** The search evaluates filters over the same metadata, read back. */
  ghost predicate Reloaded(w: World, corpus: Corpus) {
    w.metadata == map k | k in corpus :: Load(w.printer.lib, Store(w.printer.lib, corpus[k]))
  }

  function PostgresPicks(w: World, corpus: Corpus, eng: Postgres.Engine, f: Filter): Hit -> bool {
    h => Postgres.Keeps(w.printer.lib, eng, f, RowOf(w, corpus, h))
  }

  function SqlitePicks(w: World, corpus: Corpus, eng: Sqlite.Engine, f: Filter): Hit -> bool
    requires Valid(f)
  {
    h => Sqlite.Keeps(w.printer.lib, eng, f, RowOf(w, corpus, h))
  }

  /** The ranking as far as the index keeps it, cut off at a limit. */
  function PickedSearch(w: World, picks: Hit -> bool, limit: int): seq<Hit> {
    FirstN(O.Filter(picks, w.ranking), limit)
  }

  lemma {:induction false} PicksAsKept(w: World, picks: Hit -> bool, f: Filter, hits: seq<Hit>)
    ensures O.Filter(picks, hits) == Kept(w, f, hits)
      <==> forall h | h in hits :: picks(h) == Verdict(w, f, SourceKey(h))
  {
    hide Verdict;
    if forall h | h in hits :: picks(h) == Verdict(w, f, SourceKey(h)) {
      SamePicks(w, picks, f, hits);
    } else {
      O.FilterMembers(picks, hits);
      KeptExactly(w, f, hits);
      var h :| h in hits && picks(h) != Verdict(w, f, SourceKey(h));
      assert (h in O.Filter(picks, hits)) != (h in Kept(w, f, hits));
    }
  }

  lemma {:induction false} SamePicks(w: World, picks: Hit -> bool, f: Filter, hits: seq<Hit>)
    requires forall h | h in hits :: picks(h) == Verdict(w, f, SourceKey(h))
    ensures O.Filter(picks, hits) == Kept(w, f, hits)
  {
    hide Verdict;
    if hits != [] { SamePicks(w, picks, f, hits[1..]); }
  }

  /** The verdict in Go is over the row read back. */
  lemma VerdictOverRow(w: World, corpus: Corpus, f: Filter, h: Hit)
    requires Reloaded(w, corpus)
    ensures Verdict(w, f, SourceKey(h)) <==> Matches(w.printer.lib, f, Load(w.printer.lib, RowOf(w, corpus, h)))
  {
    if SourceKey(h) !in corpus { assert Load(w.printer.lib, Store(w.printer.lib, map[])) == map[]; }
  }

  /** All limits of a search agree when the whole lists do. */
  lemma WholeList(s: seq<Hit>, t: seq<Hit>)
    ensures (forall limit: int :: FirstN(s, limit) == FirstN(t, limit)) <==> s == t
  {
    var n := |s| + |t| + 1;
    assert FirstN(s, n) == s && FirstN(t, n) == t;
  }

  lemma SearchAsKept(w: World, picks: Hit -> bool, f: Filter)
    ensures (forall limit: int :: PickedSearch(w, picks, limit) == IndexSearchFiltered(w, f, limit))
       <==> (forall h | h in w.ranking :: picks(h) == Verdict(w, f, SourceKey(h)))
  {
    hide Verdict;
    PicksAsKept(w, picks, f, w.ranking);
    WholeList(O.Filter(picks, w.ranking), Kept(w, f, w.ranking));
    assert forall limit: int :: PickedSearch(w, picks, limit) == FirstN(O.Filter(picks, w.ranking), limit);
    assert forall limit: int :: IndexSearchFiltered(w, f, limit) == FirstN(Kept(w, f, w.ranking), limit);
  }

  /** A PostgreSQL index selects for every valid filter what the search would select in Go, exactly when each ranked
      document's numbers are float64s to it. */
  lemma PostgresIndexExact(w: World, corpus: Corpus, eng: Postgres.Engine)
    requires Reloaded(w, corpus)
    ensures (forall f, limit: int | Valid(f) ::
               PickedSearch(w, PostgresPicks(w, corpus, eng, f), limit) == IndexSearchFiltered(w, f, limit))
       <==> (forall h | h in w.ranking :: Exact(w.printer.lib, PostgresReader, RowOf(w, corpus, h)))
  {
    hide Postgres.Keeps, Matches, Exact, Load, Store, PickedSearch, IndexSearchFiltered, Valid, Verdict;
    forall f | Valid(f)
      ensures (forall limit: int ::
                PickedSearch(w, PostgresPicks(w, corpus, eng, f), limit) == IndexSearchFiltered(w, f, limit))
         <==> (forall h | h in w.ranking :: PostgresPicks(w, corpus, eng, f)(h) == Verdict(w, f, SourceKey(h)))
    {
      SearchAsKept(w, PostgresPicks(w, corpus, eng, f), f);
    }
    forall h | h in w.ranking
      ensures (forall f | Valid(f) :: PostgresPicks(w, corpus, eng, f)(h) == Verdict(w, f, SourceKey(h)))
         <==> Exact(w.printer.lib, PostgresReader, RowOf(w, corpus, h))
    {
      PostgresPicksExactly(w, corpus, eng, h);
    }
  }

  lemma PostgresPicksExactly(w: World, corpus: Corpus, eng: Postgres.Engine, h: Hit)
    requires Reloaded(w, corpus)
    ensures (forall f | Valid(f) :: PostgresPicks(w, corpus, eng, f)(h) == Verdict(w, f, SourceKey(h)))
       <==> Exact(w.printer.lib, PostgresReader, RowOf(w, corpus, h))
  {
    hide Postgres.Keeps, Matches, Exact, Load, Store, Valid, Verdict;
    forall f { VerdictOverRow(w, corpus, f, h); }
    Postgres.PushDownPreservesMeaning(w.printer.lib, eng,
      if SourceKey(h) in corpus then corpus[SourceKey(h)] else map[]);
  }

  /** The same of a SQLite index. */
  lemma SqliteIndexExact(w: World, corpus: Corpus, eng: Sqlite.Engine)
    requires Reloaded(w, corpus)
    ensures (forall f, limit: int | Valid(f) ::
               PickedSearch(w, SqlitePicks(w, corpus, eng, f), limit) == IndexSearchFiltered(w, f, limit))
       <==> (forall h | h in w.ranking :: Exact(w.printer.lib, SqliteReader, RowOf(w, corpus, h)))
  {
    hide Sqlite.Keeps, Matches, Exact, Load, Store, PickedSearch, IndexSearchFiltered, Valid, Verdict;
    forall f | Valid(f)
      ensures (forall limit: int ::
                PickedSearch(w, SqlitePicks(w, corpus, eng, f), limit) == IndexSearchFiltered(w, f, limit))
         <==> (forall h | h in w.ranking :: SqlitePicks(w, corpus, eng, f)(h) == Verdict(w, f, SourceKey(h)))
    {
      SearchAsKept(w, SqlitePicks(w, corpus, eng, f), f);
    }
    forall h | h in w.ranking
      ensures (forall f | Valid(f) :: SqlitePicks(w, corpus, eng, f)(h) == Verdict(w, f, SourceKey(h)))
         <==> Exact(w.printer.lib, SqliteReader, RowOf(w, corpus, h))
    {
      SqlitePicksExactly(w, corpus, eng, h);
    }
  }

  lemma SqlitePicksExactly(w: World, corpus: Corpus, eng: Sqlite.Engine, h: Hit)
    requires Reloaded(w, corpus)
    ensures (forall f | Valid(f) :: SqlitePicks(w, corpus, eng, f)(h) == Verdict(w, f, SourceKey(h)))
       <==> Exact(w.printer.lib, SqliteReader, RowOf(w, corpus, h))
  {
    hide Sqlite.Keeps, Matches, Exact, Load, Store, Valid, Verdict;
    forall f { VerdictOverRow(w, corpus, f, h); }
    Sqlite.PushDownPreservesMeaning(w.printer.lib, eng, if SourceKey(h) in corpus then corpus[SourceKey(h)] else map[]);
  }
}
