/** blob/gorm/store.go, List and Delete; ingest/gorm/blob_reference.go, ListReferencedBlobs; ingest/cleanup.go: tables
    are walked page by page after the last key seen, and the blobs that no document references are deleted. */
module BlobSweep {
  import opened Wrappers
  import opened Order
  import B = BlobScan
  import opened BlobRefs

  const LIST_BATCH: nat := 500
  const DELETE_BATCH: nat := 100
  const SCAN_BATCH: nat := 50

  predicate Above(h: string, last: string) { last == "" || Compare(h, last) > 0 }

  predicate Ascending(page: seq<string>) { forall i, j | 0 <= i < j < |page| :: Compare(page[i], page[j]) < 0 }

  /** The first keys above last, at most limit of them. */
  predicate IsPage(page: seq<string>, table: set<string>, last: string, limit: nat) {
    && |page| <= limit && Ascending(page) && (forall h | h in page :: h in table && Above(h, last))
    && forall h | h in table && Above(h, last) && h !in page ::
        |page| == limit && forall p | p in page :: Compare(p, h) < 0
  }

  lemma StrictlyAbove(a: string, b: string)
    ensures Compare(a, b) < 0 <==> TextLe(a, b) && a != b
    ensures Compare(a, b) == -Compare(b, a)
  {
    CompareZero(a, b);
    CompareFlips(a, b);
  }

  /** The database's answer to "hash > last order by hash limit n". */
  method QueryPage(table: set<string>, last: string, limit: nat) returns (page: seq<string>)
    ensures IsPage(page, table, last, limit)
  {
    var keys := Listing(table, last);
    page := if |keys| > limit then keys[..limit] else keys;
    forall h | h in table && Above(h, last) && h !in page
      ensures |page| == limit && forall p | p in page :: Compare(p, h) < 0
    {
      var k :| 0 <= k < |keys| && keys[k] == h;
      assert k >= |page|;
    }
  }

  method Listing(table: set<string>, last: string) returns (keys: seq<string>)
    ensures Ascending(keys) && forall h :: h in keys <==> h in table && Above(h, last)
  {
    var found := set h | h in table && Above(h, last);
    keys := [];
    var rest := found;
    while rest != {}
      invariant rest <= found && multiset(keys) + multiset(rest) == multiset(found)
      decreases |rest|
    {
      var k :| k in rest;
      keys := keys + [k];
      rest := rest - {k};
    }
    TextOrder();
    SortCorrect(TextLe, keys);
    keys := Sort(TextLe, keys);
    forall h ensures h in keys <==> h in found { assert h in multiset(keys) <==> h in multiset(found); }
    forall i, j | 0 <= i < j < |keys| ensures Compare(keys[i], keys[j]) < 0 {
      Twice(keys, i, j);
      assert multiset(found)[keys[i]] <= 1;
      StrictlyAbove(keys[i], keys[j]);
    }
  }

  /** The keys a walk has passed when it stands at last. */
  function Passed(table: set<string>, last: string): set<string> { set h | h in table && !Above(h, last) }

  function KeysOf(page: seq<string>): set<string> { set h | h in page }

  predicate NonEmpty(table: set<string>) { "" !in table }

  /** Walking on from a page passes its keys and no others. */
  lemma PagePasses(table: set<string>, last: string, page: seq<string>, limit: nat)
    requires IsPage(page, table, last, limit) && limit > 0 && NonEmpty(table)
    ensures page == [] ==> Passed(table, last) == if last == "" then {} else table
    ensures page == [] ==> forall h | h in table :: !Above(h, last)
    ensures page != [] ==> page[|page| - 1] != ""
    ensures page != [] ==> Passed(table, page[|page| - 1]) == Passed(table, last) + KeysOf(page)
  {
    if page != [] {
      var end := page[|page| - 1];
      forall h | h in table
        ensures !Above(h, end) <==> !Above(h, last) || h in page
      {
        EndOfPage(table, last, page, limit, h);
      }
    }
  }

  lemma EndOfPage(table: set<string>, last: string, page: seq<string>, limit: nat, h: string)
    requires IsPage(page, table, last, limit) && page != [] && NonEmpty(table) && h in table
    ensures !Above(h, page[|page| - 1]) <==> !Above(h, last) || h in page
  {
    var end := page[|page| - 1];
    CompareFlips(h, end);
    CompareZero(h, end);
    if h in page {
      var k :| 0 <= k < |page| && page[k] == h;
    } else if Above(h, last) {
      assert end in page;
    } else {
      assert end in page;
      CompareFlips(end, last);
      CompareChains(h, last, end);
    }
  }

  /** ListReferencedBlobs: the distinct hashes of the reference table. */
  method ListReferenced(refs: set<(string, Hash)>) returns (referenced: set<Hash>)
    requires forall r | r in refs :: B.Valid(r.1)
    ensures referenced == set r | r in refs :: r.1
  {
    var hashes := set r | r in refs :: r.1;
    referenced := {};
    var last := "";
    while true
      invariant last == "" ==> referenced == {}
      invariant last != "" ==> referenced == Passed(hashes, last)
      decreases hashes - referenced
    {
      var page := QueryPage(hashes, last, LIST_BATCH);
      PagePasses(hashes, last, page, LIST_BATCH);
      if |page| == 0 { return; }
      assert page[0] in hashes && page[0] !in referenced;
      referenced := referenced + KeysOf(page);
      last := page[|page| - 1];
    }
  }

  // ---- the sweep ----

  class Blobs {
    var hashes: set<Hash>

    constructor (hashes: set<Hash>)
      ensures this.hashes == hashes
    {
      this.hashes := hashes;
    }

    /** Malformed hashes are ignored, unknown ones are no error. */
    method Delete(gone: seq<Hash>)
      modifies this
      ensures hashes == old(hashes) - set h | h in gone && B.Valid(h)
    {
      var keys := KeepValid(gone);
      if |keys| == 0 { return; }
      hashes := hashes - set h | h in keys;
    }
  }

  method KeepValid(gone: seq<Hash>) returns (keys: seq<Hash>)
    ensures forall h :: h in keys <==> h in gone && B.Valid(h)
  {
    keys := [];
    for i := 0 to |gone|
      invariant forall h :: h in keys <==> h in gone[..i] && B.Valid(h)
    {
      if B.Valid(gone[i]) { keys := keys + [gone[i]]; }
    }
    assert gone[..|gone|] == gone;
  }

  /** The sweep so far: of the blobs stored at first, those passed and not referenced are gone, except those that
      wait in the batch. */
  ghost predicate Swept(now: set<Hash>, stored: set<Hash>, passed: set<Hash>, referenced: set<Hash>, batch: seq<Hash>) {
    && passed <= stored
    && (forall h | h in batch :: h in passed && h !in referenced)
    && now == (set h | h in stored && (h !in passed || h in referenced || h in batch))
  }

  method Flush(blobs: Blobs, batch: seq<Hash>, ghost stored: set<Hash>, ghost passed: set<Hash>,
      ghost referenced: set<Hash>)
    requires Swept(blobs.hashes, stored, passed, referenced, batch) && forall h | h in stored :: B.Valid(h)
    modifies blobs
    ensures Swept(blobs.hashes, stored, passed, referenced, [])
  {
    if |batch| == 0 { return; }
    blobs.Delete(batch);
  }

  /** The callback of the walk, on one blob. */
  method Visit(blobs: Blobs, h: Hash, batch0: seq<Hash>, referenced: set<Hash>, ghost stored: set<Hash>,
      ghost passed: set<Hash>)
    returns (batch: seq<Hash>)
    requires Swept(blobs.hashes, stored, passed, referenced, batch0) && h in stored && h !in passed
    requires forall h | h in stored :: B.Valid(h)
    modifies blobs
    ensures Swept(blobs.hashes, stored, passed + {h}, referenced, batch)
  {
    batch := batch0;
    if h in referenced { return; }
    batch := batch + [h];
    if |batch| >= DELETE_BATCH {
      Flush(blobs, batch, stored, passed + {h}, referenced);
      batch := [];
    }
  }

  /** The callbacks of one page. */
  method VisitPage(blobs: Blobs, page: seq<Hash>, batch0: seq<Hash>, referenced: set<Hash>,
      ghost stored: set<Hash>, ghost passed: set<Hash>)
    returns (batch: seq<Hash>)
    requires Swept(blobs.hashes, stored, passed, referenced, batch0) && Ascending(page)
    requires forall h | h in page :: h in stored && h !in passed
    requires forall h | h in stored :: B.Valid(h)
    modifies blobs
    ensures Swept(blobs.hashes, stored, passed + KeysOf(page), referenced, batch)
  {
    batch := batch0;
    assert passed + KeysOf(page[..0]) == passed;
    for i := 0 to |page|
      invariant Swept(blobs.hashes, stored, passed + (KeysOf(page[..i])), referenced, batch)
    {
      DistinctPage(page, i);
      ghost var before := passed + KeysOf(page[..i]);
      assert before + {page[i]} == passed + KeysOf(page[..i + 1]);
      batch := Visit(blobs, page[i], batch, referenced, stored, before);
    }
    assert page[..|page|] == page;
  }

  lemma DistinctPage(page: seq<Hash>, i: nat)
    requires Ascending(page) && i < |page|
    ensures page[i] !in page[..i]
  {
    forall j | 0 <= j < i ensures page[j] != page[i] { StrictlyAbove(page[j], page[i]); }
  }

  /** Blobs above the walk's position have not been touched. */
  lemma PageOfStored(now: set<Hash>, stored: set<Hash>, last: string, referenced: set<Hash>, batch: seq<Hash>,
      page: seq<Hash>)
    requires last != "" ==> Swept(now, stored, Passed(stored, last), referenced, batch)
    requires last == "" ==> now == stored
    requires IsPage(page, now, last, LIST_BATCH)
    ensures IsPage(page, stored, last, LIST_BATCH)
  {
    forall h | h in stored && Above(h, last) ensures h in now {}
  }

  /** cleanupOrphanedBlobs over List: the walk reads the table while the callbacks delete from it. */
  method SweepBlobs(blobs: Blobs, referenced: set<Hash>)
    requires forall h | h in blobs.hashes :: B.Valid(h)
    modifies blobs
    ensures blobs.hashes == old(blobs.hashes) * referenced
  {
    ghost var stored, passed: set<Hash> := blobs.hashes, {};
    var batch: seq<Hash> := [];
    var last := "";
    while true
      invariant last == "" ==> passed == {} && batch == [] && blobs.hashes == stored
      invariant last != "" ==> passed == Passed(stored, last)
      invariant Swept(blobs.hashes, stored, passed, referenced, batch)
      decreases stored - passed
    {
      var page := QueryPage(blobs.hashes, last, LIST_BATCH);
      PageOfStored(blobs.hashes, stored, last, referenced, batch, page);
      PagePasses(stored, last, page, LIST_BATCH);
      if |page| == 0 { break; }
      assert page[0] in stored && page[0] !in passed;
      batch := VisitPage(blobs, page, batch, referenced, stored, passed);
      passed := passed + KeysOf(page);
      last := page[|page| - 1];
    }
    Flush(blobs, batch, stored, passed, referenced);
  }

  /** The documents of done open, and referenced holds what a scan of them finds. */
  ghost predicate Scanned(key: Key, docs: map<string, Doc>, done: seq<string>, referenced: set<Hash>)
    requires forall id | id in done :: id in docs
  {
    && (forall id | id in done :: Opened(key, docs[id].content).Some?)
    && forall h :: h in referenced <==> exists id | id in done :: h in B.Scan(Opened(key, docs[id].content).value)
  }

  predicate Lists(order: seq<string>, docs: map<string, Doc>) {
    (forall id | id in order :: id in docs) && forall id | id in docs :: id in order
  }

  function ReadUpTo(order: seq<string>, page: nat): nat {
    if page * SCAN_BATCH < |order| then page * SCAN_BATCH else |order|
  }

  /** scanReferencedBlobs: headers page by page, and one document at a time; order is how the database lists them. */
  method ScanReferenced(key: Key, docs: map<string, Doc>, order: seq<string>) returns (live: Option<set<Hash>>)
    requires Lists(order, docs)
    ensures live == ScanLive(key, docs)
  {
    hide B.Scan, Opened;
    var referenced: set<Hash> := {};
    var page := 0;
    while true
      invariant Scanned(key, docs, order[..ReadUpTo(order, page)], referenced)
      decreases |order| - ReadUpTo(order, page)
    {
      var from, to := ReadUpTo(order, page), ReadUpTo(order, page + 1);
      if from == to {
        assert order[..from] == order;
        AllScanned(key, docs, order, referenced);
        return Some(referenced);
      }
      for i := from to to
        invariant Scanned(key, docs, order[..i], referenced)
      {
        var content := Opened(key, docs[order[i]].content);
        if content.None? { return None; }
        var hashes := B.ScanHashes(content.value);
        assert order[..i + 1] == order[..i] + [order[i]];
        referenced := referenced + set h | h in hashes;
      }
      page := page + 1;
    }
  }

  lemma AllScanned(key: Key, docs: map<string, Doc>, order: seq<string>, referenced: set<Hash>)
    requires Lists(order, docs) && Scanned(key, docs, order, referenced)
    ensures ScanLive(key, docs) == Some(referenced)
  {
    hide B.Scan, Opened;
    var live := ScanLive(key, docs).value;
    forall h ensures h in live <==> h in referenced {}
    assert live == referenced;
  }

  /** referencedBlobs: from the table when the store lists its references, and by a scan otherwise. */
  method ReferencedBlobs(store: Store, lists: bool, order: seq<string>) returns (live: Option<set<Hash>>)
    requires Consistent(store.State()) && Lists(order, store.docs)
    ensures live == if lists then Some(Live(store.saved)) else ScanLive(store.key, store.docs)
  {
    if lists {
      ReferencesValid(store.State());
      LiveIsListed(store.State());
      var referenced := ListReferenced(store.refs);
      live := Some(referenced);
    } else {
      live := ScanReferenced(store.key, store.docs, order);
    }
  }

  /** Every document reads back as the content it stands for. */
  ghost predicate ReadsAsClear(store: Store)
    requires store.clear.Keys == store.docs.Keys
    reads store
  {
    forall id | id in store.docs :: Opened(store.key, store.docs[id].content) == Some(store.clear[id])
  }

  /** The sweep ends with exactly the blobs stored before it that some document references: from the table, in the
      content it was last saved with; by a scan, in the content it stands for, when every document reads back as that.
      When the scan meets a document that does not open, nothing is deleted. */
  method CleanupOrphanedBlobs(store: Store, blobs: Blobs, lists: bool, order: seq<string>) returns (ok: bool)
    requires Consistent(store.State()) && Lists(order, store.docs)
    requires forall h | h in blobs.hashes :: B.Valid(h)
    modifies blobs
    ensures ok <==> lists || ScanLive(store.key, store.docs).Some?
    ensures !ok ==> blobs.hashes == old(blobs.hashes)
    ensures ok && !lists ==> blobs.hashes == old(blobs.hashes) * ScanLive(store.key, store.docs).value
    ensures lists ==> blobs.hashes == old(blobs.hashes) * Live(store.saved)
    ensures !lists && ReadsAsClear(store) ==> ok && blobs.hashes == old(blobs.hashes) * Live(store.clear)
  {
    var live := ReferencedBlobs(store, lists, order);
    if ReadsAsClear(store) {
      SameLiveSet(store.key, store.docs, store.clear);
    }
    if live.None? { return false; }
    SweepBlobs(blobs, live.value);
    ok := true;
  }

  lemma ReferencesValid(t: Tables)
    requires Consistent(t)
    ensures forall r | r in t.refs :: B.Valid(r.1)
  {
    forall r | r in t.refs ensures B.Valid(r.1) { B.FoundAreValid(t.saved[r.0], r.1); }
  }
}
