/** ingest/gorm/encryption.go and crypto/crypto.go: the documents reachable from a written or loaded row are found by a
    walk of the cyclic object graph; their content is sealed around a write and plain after a read. */
module Encryption {
  import opened Wrappers

  type Bytes = seq<char>

  // ---- the cipher ----

  /** Authenticated encryption: the first argument is the random nonce, None a failure of the random source; opening
      fails on a value that was not sealed under the key. */
  datatype Keyed = Keyed(encrypt: (nat, Bytes) -> Option<Bytes>, decrypt: Bytes -> Option<Bytes>)

  /** Decryption undoes encryption, and what it returns is shorter than what it was given. */
  ghost predicate Lawful(c: Keyed) {
    && (forall n, v | c.encrypt(n, v).Some? :: c.decrypt(c.encrypt(n, v).value) == Some(v))
    && forall w | c.decrypt(w).Some? :: |c.decrypt(w).value| < |w|
  }

  type Cipher = c: Keyed | Lawful(c) ghost witness PadOne()

  ghost function PadOne(): (c: Keyed)
    ensures Lawful(c)
  {
    Keyed((n, v) => Some(v + ['*']), w => if w == [] then None else Some(w[..|w| - 1]))
  }

  const MARKER := "amx1:"

  predicate IsSealed(v: Bytes) { MARKER <= v }

  function Seal(c: Cipher, nonce: nat, v: Bytes): (w: Option<Bytes>)
    ensures v != [] && w.Some? ==> IsSealed(w.value)
  {
    if v == [] then Some(v)
    else match c.encrypt(nonce, v) case None => None case Some(w) => Some(MARKER + w)
  }

  function Open(c: Cipher, v: Bytes): Option<Bytes> {
    if !IsSealed(v) then Some(v) else c.decrypt(v[|MARKER|..])
  }

  /** What a write stores: empty content, and content that carries the marker, are stored as they are. */
  function Stored(c: Cipher, nonce: nat, v: Bytes): Option<Bytes> {
    if v == [] || IsSealed(v) then Some(v) else Seal(c, nonce, v)
  }

  /** Reading back what was stored gives the clear content exactly when it does not carry the marker. */
  lemma RoundTrip(c: Cipher, nonce: nat, v: Bytes)
    requires Stored(c, nonce, v).Some?
    ensures Open(c, Stored(c, nonce, v).value) == Some(v) <==> !IsSealed(v)
  {
    assert Lawful(c);
    if v != [] && !IsSealed(v) { assert Stored(c, nonce, v).value[|MARKER|..] == c.encrypt(nonce, v).value; }
  }

  // ---- the graph ----

  datatype Kind = DocumentRow | SectionRow | CollectionRow

  /** A row of the model; only the fields of its kind are used. */
  class Row {
    const kind: Kind
    var content: Bytes
    var sections: seq<Row?>
    var collections: seq<Row?>
    var documents: seq<Row?>
    var document: Row?
    var parent: Row?

    constructor (kind: Kind, content: Bytes)
      ensures this.kind == kind && this.content == content && Links() == if kind == SectionRow then [null, null] else []
    {
      this.kind, this.content := kind, content;
      sections, collections, documents, document, parent := [], [], [], null, null;
    }

    /** The pointers the walk follows, in its order. */
    function Links(): seq<Row?>
      reads this`sections, this`collections, this`documents, this`document, this`parent
    {
      match kind
      case DocumentRow => sections + collections
      case SectionRow => [document, parent] + sections
      case CollectionRow => documents
    }
  }

  ghost predicate Closed(all: set<Row>)
    reads all`sections, all`collections, all`documents, all`document, all`parent
  {
    forall a, b | a in all && b in a.Links() && b != null :: b in all
  }

  /** The rows n links away from the roots, or fewer. */
  ghost function ReachIn(all: set<Row>, roots: set<Row>, n: nat): set<Row>
    reads all`sections, all`collections, all`documents, all`document, all`parent
  {
    if n == 0 then roots
    else
      var near := ReachIn(all, roots, n - 1);
      near + set a, b: Row | a in near && a in all && b in a.Links() :: b
  }

  /** all is any closed set of rows around the roots. */
  ghost function Reachable(all: set<Row>, roots: set<Row>): set<Row>
    reads all`sections, all`collections, all`documents, all`document, all`parent
  {
    set x | x in all && exists n: nat :: x in ReachIn(all, roots, n)
  }

  lemma ReachableClosed(all: set<Row>, roots: set<Row>)
    requires Closed(all) && roots <= all
    ensures Closed(Reachable(all, roots)) && roots <= Reachable(all, roots)
  {
    var r := Reachable(all, roots);
    forall a, b | a in r && b in a.Links() && b != null ensures b in r {
      var n: nat :| a in ReachIn(all, roots, n);
      assert b in ReachIn(all, roots, n + 1);
    }
    assert forall x | x in roots :: x in ReachIn(all, roots, 0);
  }

  lemma {:induction false} ReachInLeast(all: set<Row>, roots: set<Row>, n: nat, within: set<Row>)
    requires roots <= within && Closed(within) && within <= all
    ensures ReachIn(all, roots, n) <= within
  {
    if n > 0 { ReachInLeast(all, roots, n - 1, within); }
  }

  lemma ReachableLeast(all: set<Row>, roots: set<Row>, within: set<Row>)
    requires roots <= within && Closed(within) && within <= all
    ensures Reachable(all, roots) <= within
  {
    forall x | x in Reachable(all, roots) ensures x in within {
      var n: nat :| x in ReachIn(all, roots, n);
      ReachInLeast(all, roots, n, within);
    }
  }

  predicate In(b: Row?, within: set<Row>) { b == null || b in within }

  /** within has the rows in the fields of a. */
  ghost predicate HasFields(a: Row, within: set<Row>)
    reads a`sections, a`collections, a`documents, a`document, a`parent
  {
    match a.kind
    case DocumentRow => (forall b | b in a.sections :: In(b, within)) && forall b | b in a.collections :: In(b, within)
    case SectionRow => In(a.document, within) && In(a.parent, within) && forall b | b in a.sections :: In(b, within)
    case CollectionRow => forall b | b in a.documents :: In(b, within)
  }

  lemma FieldsAreLinks(a: Row, within: set<Row>)
    ensures HasFields(a, within) <==> forall b | b in a.Links() :: In(b, within)
  {
    if a.kind == SectionRow && forall b | b in a.Links() :: In(b, within) {
      assert a.Links()[0] == a.document && a.Links()[1] == a.parent;
    }
  }

  /** Reachable is the least set of rows that has the roots and, with a row, what its fields hold: sections and
      collections of a document, document, parent and sections of a section, documents of a collection. */
  lemma ReachableByFields(all: set<Row>, roots: set<Row>)
    requires Closed(all) && roots <= all
    ensures roots <= Reachable(all, roots)
    ensures forall a | a in Reachable(all, roots) :: HasFields(a, Reachable(all, roots))
    ensures forall within | roots <= within <= all && (forall a | a in within :: HasFields(a, within)) ::
      Reachable(all, roots) <= within
  {
    ReachableClosed(all, roots);
    forall a | a in all ensures forall b | b in a.Links() :: b == null || b in all {}
    forall a | a in Reachable(all, roots) ensures HasFields(a, Reachable(all, roots)) {
      FieldsAreLinks(a, Reachable(all, roots));
    }
    forall within | roots <= within <= all && forall a | a in within :: HasFields(a, within)
      ensures Reachable(all, roots) <= within
    {
      forall a | a in within ensures forall b | b in a.Links() :: In(b, within) { FieldsAreLinks(a, within); }
      ReachableLeast(all, roots, within);
    }
  }

  // ---- the walk ----

  predicate IsDocument(r: Row) { r.kind == DocumentRow }

  /** The links of the rows in done lead to visited ones. */
  ghost predicate Explored(done: set<Row>, visited: set<Row>)
    reads done`sections, done`collections, done`documents, done`document, done`parent
  {
    forall a, b | a in done && b in a.Links() && b != null :: b in visited
  }

  /** documents are those collected before and the documents among the new rows. */
  predicate Collected(documents: seq<Row>, before: seq<Row>, fresh0: set<Row>) {
    && (forall d | d in documents :: d in before || (d in fresh0 && IsDocument(d)))
    && (forall d | d in before :: d in documents)
    && forall d | d in fresh0 && IsDocument(d) :: d in documents
  }

  method WalkPointer(r: Row?, visited0: set<Row>, documents0: seq<Row>, ghost all: set<Row>)
    returns (visited: set<Row>, documents: seq<Row>)
    requires Closed(all) && visited0 <= all && (r != null ==> r in all)
    ensures visited0 <= visited <= all && (r != null ==> r in visited)
    ensures Explored(visited - visited0, visited) && Collected(documents, documents0, visited - visited0)
    decreases all - visited0, 0, 0
  {
    visited, documents := visited0, documents0;
    if r == null || r in visited { return; }
    visited := visited + {r};
    visited, documents := WalkStruct(r, visited, documents, all);
  }

  /** A struct: the row itself, then the fields of its kind. */
  method WalkStruct(r: Row, visited0: set<Row>, documents0: seq<Row>, ghost all: set<Row>)
    returns (visited: set<Row>, documents: seq<Row>)
    requires Closed(all) && visited0 <= all && r in all
    ensures visited0 <= visited <= all && Explored({r} + (visited - visited0), visited)
    ensures Collected(documents, documents0, {r} + (visited - visited0))
    decreases all - visited0, 2, 0
  {
    visited, documents := visited0, documents0;
    if r.kind == DocumentRow { documents := documents + [r]; }
    visited, documents := WalkSlice(r.Links(), visited, documents, all);
  }

  method WalkSlice(rs: seq<Row?>, visited0: set<Row>, documents0: seq<Row>, ghost all: set<Row>)
    returns (visited: set<Row>, documents: seq<Row>)
    requires Closed(all) && visited0 <= all && forall r | r in rs && r != null :: r in all
    ensures visited0 <= visited <= all && forall r | r in rs && r != null :: r in visited
    ensures Explored(visited - visited0, visited) && Collected(documents, documents0, visited - visited0)
    decreases all - visited0, 1, 0
  {
    visited, documents := visited0, documents0;
    for i := 0 to |rs|
      invariant visited0 <= visited <= all && forall r | r in rs[..i] && r != null :: r in visited
      invariant Explored(visited - visited0, visited) && Collected(documents, documents0, visited - visited0)
    {
      assert rs[i] in rs;
      visited, documents := WalkPointer(rs[i], visited, documents, all);
    }
    assert rs[..|rs|] == rs;
  }

  /** What a query or a write was given: a pointer, or a struct by its address, which is not marked as visited. */
  datatype Root = Pointer(target: Row?) | Struct(row: Row)

  function RowOf(root: Root): set<Row> {
    match root
    case Pointer(r) => if r == null then {} else {r}
    case Struct(r) => {r}
  }

  function RootRows(roots: seq<Root>): set<Row> {
    if roots == [] then {} else RootRows(roots[..|roots| - 1]) + RowOf(roots[|roots| - 1])
  }

  /** What a query was given is where the walk starts: every row pointed to, and every struct. */
  lemma {:induction false} RootRowsAre(roots: seq<Root>)
    ensures forall r: Row | r in RootRows(roots) :: Pointer(r) in roots || Struct(r) in roots
    ensures forall x | x in roots ::
      match x case Pointer(r) => In(r, RootRows(roots)) case Struct(r) => r in RootRows(roots)
  {
    if roots != [] {
      var n := |roots| - 1;
      RootRowsAre(roots[..n]);
      assert roots == roots[..n] + [roots[n]];
    }
  }

  /** The walk after some roots: entered holds their rows. */
  ghost predicate Walked(within: set<Row>, entered: set<Row>, visited: set<Row>, documents: seq<Row>)
    reads within`sections, within`collections, within`documents, within`document, within`parent
  {
    && entered <= within && visited <= within && Explored(entered + visited, visited)
    && (forall d | d in documents :: d in entered + visited && IsDocument(d))
    && forall d | d in entered + visited && IsDocument(d) :: d in documents
  }

  method WalkNext(root: Root, visited0: set<Row>, documents0: seq<Row>, ghost within: set<Row>, ghost entered: set<Row>)
    returns (visited: set<Row>, documents: seq<Row>)
    requires Closed(within) && RowOf(root) <= within && Walked(within, entered, visited0, documents0)
    ensures Walked(within, entered + RowOf(root), visited, documents)
  {
    match root
    case Pointer(r) => visited, documents := WalkPointer(r, visited0, documents0, within);
    case Struct(r) => visited, documents := WalkStruct(r, visited0, documents0, within);
  }

  /** The walk collects exactly the documents reachable from the roots, on any graph. A root given as a struct may be
      listed twice. */
  method CollectDocuments(roots: seq<Root>, ghost all: set<Row>) returns (documents: seq<Row>)
    requires Closed(all) && RootRows(roots) <= all
    ensures forall d | d in documents :: d in Reachable(all, RootRows(roots)) && IsDocument(d)
    ensures forall d | d in Reachable(all, RootRows(roots)) && IsDocument(d) :: d in documents
  {
    ghost var within := Reachable(all, RootRows(roots));
    ReachableClosed(all, RootRows(roots));
    var visited: set<Row> := {};
    documents := [];
    for i := 0 to |roots|
      invariant Walked(within, RootRows(roots[..i]), visited, documents)
    {
      RootsOneMore(roots, i);
      visited, documents := WalkNext(roots[i], visited, documents, within, RootRows(roots[..i]));
    }
    assert roots[..|roots|] == roots;
    ReachableLeast(all, RootRows(roots), RootRows(roots) + visited);
  }

  lemma {:induction false} RootsOneMore(roots: seq<Root>, i: nat)
    requires i < |roots|
    ensures RootRows(roots[..i + 1]) == RootRows(roots[..i]) + RowOf(roots[i])
    ensures RowOf(roots[i]) <= RootRows(roots)
    decreases |roots|
  {
    assert roots[..i + 1][..i] == roots[..i];
    var n := |roots| - 1;
    if i < n {
      RootsOneMore(roots[..n], i);
      assert roots[..n][i] == roots[i];
    }
  }

  // ---- the callbacks ----

  /** Empty, or sealed: nothing readable leaves the process. */
  predicate Protected(v: Bytes) { v == [] || IsSealed(v) }

  /** v is the clear content of a stored value. */
  ghost predicate StoredAs(c: Cipher, v: Bytes, w: Bytes) { w == v || exists n: nat :: Stored(c, n, v) == Some(w) }

  lemma OpensTo(c: Cipher, v: Bytes, w: Bytes)
    requires StoredAs(c, v, w) && !IsSealed(v)
    ensures Open(c, w) == Some(v)
  {
    if w != v {
      var n: nat :| Stored(c, n, v) == Some(w);
      RoundTrip(c, n, v);
    }
  }

  lemma StoredAsOpens(c: Cipher, v: Bytes, w: Bytes)
    requires StoredAs(c, v, w)
    ensures Open(c, w) == Some(v) <==> !IsSealed(v)
  {
    if IsSealed(v) {
      assert forall n: nat :: Stored(c, n, v) == Some(v);
      RoundTrip(c, 0, v);
    } else {
      OpensTo(c, v, w);
    }
  }

  /** A document listed k times is opened k times. */
  function OpenTimes(c: Cipher, v: Bytes, k: nat): Option<Bytes> {
    if k == 0 then Some(v)
    else match OpenTimes(c, v, k - 1) case None => None case Some(w) => Open(c, w)
  }

  /** The first k documents listed have been opened, and no other row has changed. */
  ghost predicate OpenedUpTo(c: Cipher, documents: seq<Row>, all: set<Row>, was: map<Row, Bytes>, k: nat)
    requires k <= |documents|
    reads all`content
  {
    && was.Keys == all && (forall d | d in documents :: d in all)
    && forall d | d in all :: OpenTimes(c, was[d], multiset(documents[..k])[d]) == Some(d.content)
  }

  /** After a query: the documents reached are opened one by one, up to the first that does not open. */
  method OpenAfterQuery(c: Cipher, roots: seq<Root>, ghost all: set<Row>)
    returns (failed: bool, documents: seq<Row>, ghost done: nat)
    requires Closed(all) && RootRows(roots) <= all
    modifies all`content
    ensures forall d :: d in documents <==> d in Reachable(all, RootRows(roots)) && IsDocument(d)
    ensures done <= |documents| && OpenedUpTo(c, documents, all, old(Contents(all)), done)
    ensures if failed then done < |documents| && Open(c, documents[done].content).None? else done == |documents|
  {
    hide RootRows, IsDocument, OpenedUpTo, Open;
    documents := CollectDocuments(roots, all);
    assert Reachable(all, RootRows(roots)) <= all;
    hide Reachable;
    failed, done := OpenEach(c, documents, all);
  }

  method OpenEach(c: Cipher, documents: seq<Row>, ghost all: set<Row>) returns (failed: bool, ghost done: nat)
    requires forall d | d in documents :: d in all
    modifies all`content
    ensures done <= |documents| && OpenedUpTo(c, documents, all, old(Contents(all)), done)
    ensures if failed then done < |documents| && Open(c, documents[done].content).None? else done == |documents|
  {
    hide Open;
    ghost var was := Contents(all);
    for i := 0 to |documents|
      invariant OpenedUpTo(c, documents, all, was, i)
    {
      failed := OpenNext(c, documents, i, all, was);
      if failed { return true, i; }
    }
    failed, done := false, |documents|;
  }

  method OpenNext(c: Cipher, documents: seq<Row>, i: nat, ghost all: set<Row>, ghost was: map<Row, Bytes>)
    returns (failed: bool)
    requires i < |documents| && OpenedUpTo(c, documents, all, was, i)
    modifies all`content
    ensures failed ==> Open(c, documents[i].content).None?
    ensures OpenedUpTo(c, documents, all, was, if failed then i else i + 1)
  {
    var doc := documents[i];
    assert doc in documents;
    assert documents[..i + 1] == documents[..i] + [doc];
    assert multiset(documents[..i + 1]) == multiset(documents[..i]) + multiset{doc};
    assert OpenTimes(c, was[doc], multiset(documents[..i])[doc] + 1) == Open(c, doc.content);
    hide Open, OpenTimes;
    var plain := Open(c, doc.content);
    if plain.None? { return true; }
    doc.content := plain.value;
    failed := false;
  }

  lemma {:induction false} ClearStays(c: Cipher, w: Bytes, v: Bytes, k: nat)
    requires Open(c, w) == Some(v) && !IsSealed(v)
    ensures k > 0 ==> OpenTimes(c, w, k) == Some(v)
  {
    if k > 1 { ClearStays(c, w, v, k - 1); }
    if k == 1 { assert OpenTimes(c, w, 0) == Some(w); }
  }

  /** Opening rows written from clear contents without the marker, sealed or from before there was a key, does not fail
      and gives those contents. */
  lemma OpensClear(c: Cipher, documents: seq<Row>, all: set<Row>, was: map<Row, Bytes>, k: nat, clear: map<Row, Bytes>)
    requires k <= |documents| && OpenedUpTo(c, documents, all, was, k)
    requires forall d | d in documents :: d in clear && StoredAs(c, clear[d], was[d]) && !IsSealed(clear[d])
    ensures forall d | d in documents[..k] :: d.content == clear[d]
    ensures k < |documents| ==> Open(c, documents[k].content).Some?
  {
    forall d | d in documents
      ensures d in documents[..k] ==> d.content == clear[d]
      ensures Open(c, d.content) == Some(clear[d])
    {
      OpensTo(c, clear[d], was[d]);
      var n := multiset(documents[..k])[d];
      ClearStays(c, was[d], clear[d], n);
      assert n > 0 <==> d in documents[..k];
    }
    assert k < |documents| ==> documents[k] in documents;
  }

  /** A document that does not open makes the query fail. */
  lemma LockedFails(c: Cipher, documents: seq<Row>, all: set<Row>, was: map<Row, Bytes>, k: nat, d: Row)
    requires k <= |documents| && OpenedUpTo(c, documents, all, was, k)
    requires d in documents && d in was && Open(c, was[d]).None?
    ensures k < |documents|
  {
    if k == |documents| {
      assert documents[..k] == documents;
      OnceLocked(c, was[d], multiset(documents)[d]);
    }
  }

  lemma {:induction false} OnceLocked(c: Cipher, v: Bytes, n: nat)
    requires Open(c, v).None?
    ensures n > 0 ==> OpenTimes(c, v, n).None?
  {
    if n > 1 { OnceLocked(c, v, n - 1); }
    if n == 1 { assert OpenTimes(c, v, 0) == Some(v); }
  }

  /** Where d is listed first; a document listed again is already sealed then. */
  function First(documents: seq<Row>, d: Row): (i: nat)
    requires d in documents
    ensures i < |documents| && documents[i] == d && d !in documents[..i]
  {
    var last := |documents| - 1;
    if d in documents[..last] then First(documents[..last], d) else last
  }

  lemma FirstOrBefore(documents: seq<Row>, i: nat)
    requires i < |documents|
    ensures documents[i] in documents[..i] || First(documents, documents[i]) == i
  {
    var a := First(documents, documents[i]);
    if a < i { assert documents[..i][a] == documents[i]; }
    assert forall j | 0 <= j < a :: documents[j] in documents[..a];
  }

  lemma HeadOfPrefix(documents: seq<Row>, i: nat)
    requires i <= |documents|
    ensures i > 0 ==> documents[0] in documents[..i]
  {
    if i > 0 { assert documents[..i][0] == documents[0]; }
  }

  lemma FirstOfOne(documents: seq<Row>, d: Row)
    requires d in documents && forall e | e in documents :: e == d
    ensures First(documents, d) == 0
  {
    var i := First(documents, d);
    assert documents[0] in documents;
    HeadOfPrefix(documents, i);
  }

  /** The first k documents are sealed, each with the nonce of its place, and no other row has changed. */
  ghost predicate SealedUpTo(c: Cipher, documents: seq<Row>, nonce: nat, all: set<Row>, was: map<Row, Bytes>, k: nat)
    requires k <= |documents|
    reads all`content
  {
    && was.Keys == all && (forall d | d in documents :: d in all)
    && (forall d | d in documents[..k] :: Stored(c, nonce + First(documents, d), was[d]) == Some(d.content))
    && forall d | d in all && d !in documents[..k] :: d.content == was[d]
  }

  ghost function Contents(all: set<Row>): map<Row, Bytes>
    reads all`content
  {
    map d | d in all :: d.content
  }

  lemma SealedAreProtected(c: Cipher, documents: seq<Row>, nonce: nat, all: set<Row>, was: map<Row, Bytes>, k: nat)
    requires k <= |documents| && SealedUpTo(c, documents, nonce, all, was, k)
    ensures forall d | d in documents[..k] :: Protected(d.content)
  {
    forall d | d in documents[..k] ensures Protected(d.content) {
      StoredProtects(c, nonce + First(documents, d), was[d]);
    }
  }

  /** The stash holds what every changed row held before. */
  ghost predicate Stashed(stash: map<Row, Bytes>, all: set<Row>, was: map<Row, Bytes>)
    reads all`content
  {
    && was.Keys == all && stash.Keys <= all
    && forall d | d in all :: if d in stash then stash[d] == was[d] else d.content == was[d]
  }

  /** The next document has content to seal and encryption fails on it. */
  ghost predicate Stuck(c: Cipher, documents: seq<Row>, nonce: nat, k: nat)
    requires k < |documents|
    reads documents`content
  {
    var d := documents[k];
    d !in documents[..k] && !Protected(d.content) && Stored(c, nonce + k, d.content).None?
  }

  method SealNext(c: Cipher, documents: seq<Row>, i: nat, nonce: nat, stash0: map<Row, Bytes>, ghost all: set<Row>,
      ghost was: map<Row, Bytes>)
    returns (failed: bool, stash: map<Row, Bytes>)
    requires i < |documents| && SealedUpTo(c, documents, nonce, all, was, i) && Stashed(stash0, all, was)
    modifies all`content
    ensures if failed then SealedUpTo(c, documents, nonce, all, was, i) && Stuck(c, documents, nonce, i)
            else SealedUpTo(c, documents, nonce, all, was, i + 1) && Stashed(stash, all, was)
  {
    hide Stored, First;
    var doc := documents[i];
    assert doc in documents;
    SealedAreProtected(c, documents, nonce, all, was, i);
    FirstOrBefore(documents, i);
    assert documents[..i + 1] == documents[..i] + [doc];
    StoredCases(c, nonce + i, doc.content);
    if doc.content == [] || IsSealed(doc.content) { return false, stash0; }
    var value := Seal(c, nonce + i, doc.content);
    if value.None? { return true, map[]; }
    stash := stash0[doc := doc.content];
    doc.content := value.value;
    failed := false;
  }

  lemma StoredCases(c: Cipher, nonce: nat, v: Bytes)
    ensures Stored(c, nonce, v) == if Protected(v) then Some(v) else Seal(c, nonce, v)
  {
  }

  /** Seals the documents about to be written, up to the first one whose encryption fails. The stash keeps the clear
      content of those it sealed, and is lost when sealing fails. */
  method SealEach(c: Cipher, documents: seq<Row>, nonce: nat, ghost all: set<Row>)
    returns (failed: bool, stash: map<Row, Bytes>, ghost sealed: nat)
    requires forall d | d in documents :: d in all
    modifies all`content
    ensures sealed <= |documents| && SealedUpTo(c, documents, nonce, all, old(Contents(all)), sealed)
    ensures if failed then sealed < |documents| && Stuck(c, documents, nonce, sealed)
            else sealed == |documents| && Stashed(stash, all, old(Contents(all)))
  {
    hide Stuck, Stored, First;
    ghost var was := Contents(all);
    stash := map[];
    for i := 0 to |documents|
      invariant SealedUpTo(c, documents, nonce, all, was, i) && Stashed(stash, all, was)
    {
      failed, stash := SealNext(c, documents, i, nonce, stash, all, was);
      if failed { return true, map[], i; }
    }
    failed, sealed := false, |documents|;
  }

  method RestoreAfterCreate(stash: map<Row, Bytes>)
    modifies stash.Keys`content
    ensures forall d | d in stash :: d.content == stash[d]
  {
    var rest := stash.Keys;
    while rest != {}
      invariant rest <= stash.Keys && forall d | d in stash && d !in rest :: d.content == stash[d]
      decreases |rest|
    {
      var d :| d in rest;
      d.content := stash[d];
      rest := rest - {d};
    }
  }

  method CreateDocuments(c: Cipher, documents: seq<Row>, nonce: nat, ghost all: set<Row>)
    returns (failed: bool, written: map<Row, Bytes>, ghost sealed: nat)
    requires forall d | d in documents :: d in all
    modifies all`content
    ensures !failed ==> forall d | d in all :: d.content == old(d.content)
    ensures !failed ==> forall d | d in all && d in documents ::
      d in written && Stored(c, nonce + First(documents, d), old(d.content)) == Some(written[d])
    ensures failed ==> sealed < |documents| && Stuck(c, documents, nonce, sealed)
    ensures failed ==> SealedUpTo(c, documents, nonce, all, old(Contents(all)), sealed)
    ensures failed ==>
      ((forall d | d in all :: d.content == old(d.content))
       <==> forall d | d in all && d in documents[..sealed] :: Protected(old(d.content)))
  {
    hide Stuck, Stored, First;
    ghost var was := Contents(all);
    written := map[];
    var stash;
    failed, stash, sealed := SealEach(c, documents, nonce, all);
    if failed {
      UnchangedWhenNothingToSeal(c, documents, nonce, all, was, sealed);
      return;
    }
    written := map d | d in documents :: d.content;
    assert documents[..|documents|] == documents;
    RestoreAfterCreate(stash);
  }

  /** A write: what reaches the database is protected, and is the caller's content once read back. The caller's rows are
      as before, unless sealing fails: then the documents before the one that failed stay sealed, and the rows are as
      before exactly when none of those had anything to seal. */
  method CreateRows(c: Cipher, roots: seq<Root>, nonce: nat, ghost all: set<Row>)
    returns (failed: bool, documents: seq<Row>, written: map<Row, Bytes>, ghost sealed: nat)
    requires Closed(all) && RootRows(roots) <= all
    modifies all`content
    ensures forall d :: d in documents <==> d in Reachable(all, RootRows(roots)) && IsDocument(d)
    ensures !failed ==> forall d | d in all :: d.content == old(d.content)
    ensures !failed ==> forall d | d in all && d in documents ::
      d in written && Stored(c, nonce + First(documents, d), old(d.content)) == Some(written[d])
    ensures failed ==> sealed < |documents| && Stuck(c, documents, nonce, sealed)
    ensures failed ==> SealedUpTo(c, documents, nonce, all, old(Contents(all)), sealed)
    ensures failed ==>
      ((forall d | d in all :: d.content == old(d.content))
       <==> forall d | d in all && d in documents[..sealed] :: Protected(old(d.content)))
  {
    hide RootRows, IsDocument, Stuck, SealedUpTo, Stored, First, ReachIn, Closed;
    documents := CollectDocuments(roots, all);
    ghost var reached := Reachable(all, RootRows(roots));
    assert reached <= all;
    failed, written, sealed := CreateDocuments(c, documents, nonce, all);
    assert Reachable(all, RootRows(roots)) == reached;
  }

  lemma UnchangedWhenNothingToSeal(c: Cipher, documents: seq<Row>, nonce: nat, all: set<Row>, was: map<Row, Bytes>,
      k: nat)
    requires k <= |documents| && SealedUpTo(c, documents, nonce, all, was, k)
    ensures (forall d | d in all :: d.content == was[d]) <==> forall d | d in documents[..k] :: Protected(was[d])
  {
    forall d | d in documents[..k] ensures d.content == was[d] <==> Protected(was[d]) {
      StoredProtects(c, nonce + First(documents, d), was[d]);
    }
    assert forall d | d in documents[..k] :: d in documents;
  }

  /** A stored value is protected, and is the clear content itself exactly when that was protected already. */
  lemma StoredProtects(c: Cipher, nonce: nat, v: Bytes)
    requires Stored(c, nonce, v).Some?
    ensures Protected(Stored(c, nonce, v).value)
    ensures Stored(c, nonce, v) == Some(v) <==> Protected(v)
  {
  }

  ghost function Once(): (c: Keyed)
    ensures Lawful(c) && WorksOnce(c)
  {
    Keyed((n, v) => if n == 0 then Some(v + ['*']) else None, w => if w == [] then None else Some(w[..|w| - 1]))
  }

  ghost predicate WorksOnce(c: Keyed) { forall n: nat, v: Bytes :: c.encrypt(n, v).Some? <==> n == 0 }

  /** With encryption that works once, a batch of two documents with something to seal fails at the second and leaves
      the first one sealed in the caller's memory. */
  method HalfSealedBatch(c: Cipher, x: Bytes, y: Bytes) returns (a: Row, b: Row, failed: bool)
    requires !Protected(x) && !Protected(y) && WorksOnce(c)
    ensures failed && fresh(a) && fresh(b)
    ensures (IsSealed(a.content) && b.content == y) || (a.content == x && IsSealed(b.content))
  {
    hide Stuck, SealedUpTo, Stored, First, WorksOnce, IsSealed, Protected;
    a := new Row(DocumentRow, x);
    b := new Row(DocumentRow, y);
    ghost var all := {a, b};
    var roots := [Struct(a), Struct(b)];
    RootsOfTwo(a, b);
    ReachableClosed(all, all);
    hide Reachable, RootRows, Closed;
    var documents, written;
    ghost var sealed;
    ghost var was := Contents(all);
    failed, documents, written, sealed := CreateRows(c, roots, 0, all);
    assert a in documents && b in documents;
    OneFails(c, documents, a, b, x, y);
    if failed { OneStays(c, documents, a, b, was, sealed); }
  }

  lemma RootsOfTwo(a: Row, b: Row)
    ensures RootRows([Struct(a), Struct(b)]) == {a, b}
  {
    var roots := [Struct(a), Struct(b)];
    assert roots[..1] == [Struct(a)] && roots[..1][..0] == [];
    assert RootRows(roots[..1]) == {a};
  }

  lemma OneFails(c: Cipher, documents: seq<Row>, a: Row, b: Row, x: Bytes, y: Bytes)
    requires WorksOnce(c) && a != b && a in documents && b in documents && !Protected(x) && !Protected(y)
    ensures Stored(c, First(documents, a), x).None? || Stored(c, First(documents, b), y).None?
  {
  }

  lemma OneStays(c: Cipher, documents: seq<Row>, a: Row, b: Row, was: map<Row, Bytes>, k: nat)
    requires WorksOnce(c) && a != b && (forall d :: d in documents <==> d == a || d == b)
    requires k < |documents| && Stuck(c, documents, 0, k) && SealedUpTo(c, documents, 0, {a, b}, was, k)
    requires !Protected(was[a]) && !Protected(was[b])
    ensures (IsSealed(a.content) && b.content == was[b]) || (a.content == was[a] && IsSealed(b.content))
  {
    OneFails(c, documents, a, b, was[a], was[b]);
    var d := documents[0];
    assert k > 0 && d in documents[..k];
    StoredProtects(c, First(documents, d), was[d]);
  }
}
