/** ingest/gorm/document_store.go, blob_reference.go and encryption.go: a table of the blobs that documents reference is
    written with the documents, whose content is stored sealed when the store has a key. The database is a pair of maps;
    a transaction that fails leaves it as it was. */
module BlobRefs {
  import opened Wrappers
  import B = BlobScan
  import E = Encryption

  type Hash = seq<char>
  type Bytes = E.Bytes

  /** A row: its content as it is stored. */
  datatype Doc = Doc(source: string, content: Bytes)

  /** A document to save; a missing source, content that cannot be read, or a section row that cannot be written is an
      error. The nonce is the one its content is sealed with, should the store have a key. */
  datatype Input = Input(id: string, source: Option<string>, content: Option<Bytes>, nonce: nat, sections: bool)

  /** The two tables, the content each row was last saved with, and the clear content it stands for. */
  datatype Tables = Rows(docs: map<string, Doc>, refs: set<(string, Hash)>,
      saved: map<string, Bytes>, clear: map<string, Bytes>)

  /** SealRow is one update of EncryptExistingDocuments: read is the content its first query found. */
  datatype Op =
    | Save(inputs: seq<Input>)
    | DeleteById(ids: seq<string>)
    | DeleteBySource(source: Option<string>)
    | SealRow(id: string, read: Bytes, nonce: nat)

  /** Without a key, encryption is not configured. */
  type Key = Option<E.Cipher>

  /** The key may change from one operation to the next, as the store is opened again. */
  datatype Step = Step(key: Key, op: Op)

  /** What a query hands out; None is an error. */
  function Opened(key: Key, stored: Bytes): Option<Bytes> {
    match key
    case None => Some(stored)
    case Some(c) => E.Open(c, stored)
  }

  /** What a write stores; None is an error. */
  function Written(key: Key, nonce: nat, v: Bytes): Option<Bytes> {
    match key
    case None => Some(v)
    case Some(c) => E.Stored(c, nonce, v)
  }

  /** The hashes a scan of each content finds. */
  function RefsOf(contents: map<string, Bytes>): set<(string, Hash)> {
    set id, h | id in contents && h in B.Scan(contents[id]) :: (id, h)
  }

  predicate UniqueSources(docs: map<string, Doc>) {
    forall a, b | a in docs && b in docs :: docs[a].source == docs[b].source ==> a == b
  }

  /** A row without the marker holds its clear content. */
  predicate PlainIsClear(docs: map<string, Doc>, clear: map<string, Bytes>) {
    docs.Keys == clear.Keys && forall id | id in docs :: E.IsSealed(docs[id].content) || docs[id].content == clear[id]
  }

  ghost predicate Consistent(t: Tables) {
    && t.refs == RefsOf(t.saved) && t.saved.Keys == t.docs.Keys
    && UniqueSources(t.docs) && PlainIsClear(t.docs, t.clear)
  }

  // ---- the operations on values ----

  function DropRefs(refs: set<(string, Hash)>, ids: set<string>): set<(string, Hash)> {
    set r | r in refs && r.0 !in ids
  }

  function SaveRefs(refs: set<(string, Hash)>, id: string, content: Bytes): set<(string, Hash)> {
    DropRefs(refs, {id}) + set h | h in B.Scan(content) :: (id, h)
  }

  /** Documents go; the declared cascade takes their references. */
  function Remove(t: Tables, ids: set<string>): Tables {
    Rows(t.docs - ids, DropRefs(t.refs, ids), t.saved - ids, t.clear - ids)
  }

  /** A row and its references are written. */
  function Insert(t: Tables, id: string, source: string, w: Bytes, v: Bytes): Tables {
    Rows(t.docs[id := Doc(source, w)], SaveRefs(t.refs, id, v), t.saved[id := v], t.clear[id := v])
  }

  predicate Holds(docs: map<string, Doc>, source: string) { exists id | id in docs :: docs[id].source == source }

  ghost function HolderOf(docs: map<string, Doc>, source: string): (id: string)
    requires Holds(docs, source)
    ensures id in docs && docs[id].source == source
  {
    var id :| id in docs && docs[id].source == source;
    id
  }

  /** The row that holds a source is loaded without an error: there is none, or it opens. */
  ghost predicate Loads(key: Key, docs: map<string, Doc>, source: string) {
    Holds(docs, source) ==> Opened(key, docs[HolderOf(docs, source)].content).Some?
  }

  /** The document that holds the source goes; to SaveDocuments, an empty id is no document. */
  ghost function Evicted(t: Tables, source: string): Tables {
    if Holds(t.docs, source) && HolderOf(t.docs, source) != "" then Remove(t, {HolderOf(t.docs, source)}) else t
  }

  ghost function SaveOne(t: Tables, key: Key, i: Input): Option<Tables> {
    if i.source.None? || !Loads(key, t.docs, i.source.value) then None
    else
      var u := Evicted(t, i.source.value);
      if i.content.None? || !i.sections || i.id in u.docs || Holds(u.docs, i.source.value) then None
      else
        match Written(key, i.nonce, i.content.value)
        case None => None
        case Some(w) => Some(Insert(u, i.id, i.source.value, w, i.content.value))
  }

  ghost function SaveAll(t: Tables, key: Key, inputs: seq<Input>): Option<Tables> {
    if inputs == [] then Some(t)
    else
      match SaveAll(t, key, inputs[..|inputs| - 1])
      case None => None
      case Some(u) => SaveOne(u, key, inputs[|inputs| - 1])
  }

  /** The source is missing, the row that holds it does not open, or its id is empty and the delete has no condition. */
  ghost predicate DeleteFails(t: Tables, key: Key, source: Option<string>) {
    || source.None?
    || !Loads(key, t.docs, source.value)
    || (Holds(t.docs, source.value) && HolderOf(t.docs, source.value) == "")
  }

  /** The update of a row that was read unprotected goes through: sealing succeeds and the row is still there. */
  predicate Seals(t: Tables, key: Key, id: string, read: Bytes, nonce: nat) {
    key.Some? && !E.Protected(read) && id in t.docs && Written(key, nonce, read).Some?
  }

  /** From here on the row stands for what was read. */
  function Sealed(t: Tables, key: Key, id: string, read: Bytes, nonce: nat): Tables
    requires Seals(t, key, id, read, nonce)
  {
    t.(docs := t.docs[id := Doc(t.docs[id].source, Written(key, nonce, read).value)], clear := t.clear[id := read])
  }

  /** An operation that fails is rolled back. */
  ghost function Apply(t: Tables, key: Key, op: Op): Tables {
    match op
    case Save(inputs) => var r := SaveAll(t, key, inputs); if r.Some? then r.value else t
    case DeleteById(ids) => Remove(t, set id | id in ids)
    case DeleteBySource(source) => if DeleteFails(t, key, source) then t else Evicted(t, source.value)
    case SealRow(id, read, nonce) => if Seals(t, key, id, read, nonce) then Sealed(t, key, id, read, nonce) else t
  }

  ghost function Run(steps: seq<Step>): Tables {
    if steps == [] then Rows(map[], {}, map[], map[])
    else
      var last := steps[|steps| - 1];
      Apply(Run(steps[..|steps| - 1]), last.key, last.op)
  }

  // ---- the table follows the documents ----

  lemma StoredIsMarked(key: Key, nonce: nat, v: Bytes)
    ensures Written(key, nonce, v).Some? ==>
      Written(key, nonce, v) == Some(v) || E.IsSealed(Written(key, nonce, v).value)
  {
  }

  lemma RemoveKeeps(t: Tables, ids: set<string>)
    requires Consistent(t)
    ensures Consistent(Remove(t, ids))
  {
  }

  lemma EvictKeeps(t: Tables, source: string)
    requires Consistent(t)
    ensures Consistent(Evicted(t, source))
  {
    hide Consistent;
    if Holds(t.docs, source) { RemoveKeeps(t, {HolderOf(t.docs, source)}); }
  }

  lemma InsertKeeps(u: Tables, id: string, source: string, w: Bytes, v: Bytes)
    requires Consistent(u) && id !in u.docs && !Holds(u.docs, source) && (w == v || E.IsSealed(w))
    ensures Consistent(Insert(u, id, source, w, v))
  {
    RefsInserted(u.refs, u.saved, id, v);
    SourceInserted(u.docs, id, Doc(source, w));
    hide B.Scan, E.IsSealed, RefsOf, SaveRefs, UniqueSources, Holds;
  }

  lemma RefsInserted(refs: set<(string, Hash)>, saved: map<string, Bytes>, id: string, v: Bytes)
    requires refs == RefsOf(saved)
    ensures SaveRefs(refs, id, v) == RefsOf(saved[id := v])
  {
    hide B.Scan;
    forall r ensures r in SaveRefs(refs, id, v) <==> r in RefsOf(saved[id := v]) {}
  }

  lemma SourceInserted(docs: map<string, Doc>, id: string, d: Doc)
    requires UniqueSources(docs) && id !in docs && !Holds(docs, d.source)
    ensures UniqueSources(docs[id := d])
  {
  }

  lemma SaveOneKeeps(t: Tables, key: Key, i: Input)
    requires Consistent(t)
    ensures SaveOne(t, key, i).Some? ==> Consistent(SaveOne(t, key, i).value)
  {
    hide Consistent, Evicted, Written, E.IsSealed, Insert;
    if SaveOne(t, key, i).Some? {
      EvictKeeps(t, i.source.value);
      StoredIsMarked(key, i.nonce, i.content.value);
      InsertKeeps(Evicted(t, i.source.value), i.id, i.source.value, Written(key, i.nonce, i.content.value).value,
        i.content.value);
    }
  }

  lemma {:induction false} SaveAllKeeps(t: Tables, key: Key, inputs: seq<Input>)
    requires Consistent(t)
    ensures SaveAll(t, key, inputs).Some? ==> Consistent(SaveAll(t, key, inputs).value)
  {
    hide Consistent, SaveOne;
    if inputs != [] {
      var init := inputs[..|inputs| - 1];
      SaveAllKeeps(t, key, init);
      if SaveAll(t, key, init).Some? { SaveOneKeeps(SaveAll(t, key, init).value, key, inputs[|inputs| - 1]); }
    }
  }

  ghost predicate SameHashes(v: Bytes, w: Bytes) { forall h: Hash :: h in B.Scan(v) <==> h in B.Scan(w) }

  lemma SealKeeps(t: Tables, key: Key, id: string, read: Bytes, nonce: nat)
    requires Consistent(t)
    ensures Consistent(Apply(t, key, SealRow(id, read, nonce)))
  {
    hide B.Scan, E.IsSealed, E.Protected, Written, RefsOf, UniqueSources;
    if Seals(t, key, id, read, nonce) {
      StoredIsMarked(key, nonce, read);
      SourcesStay(t.docs, id, Sealed(t, key, id, read, nonce).docs[id]);
    }
  }

  lemma SourcesStay(docs: map<string, Doc>, id: string, d: Doc)
    requires UniqueSources(docs) && id in docs && d.source == docs[id].source
    ensures UniqueSources(docs[id := d])
  {
  }

  lemma RefsOfChanged(clear: map<string, Bytes>, id: string, v: Bytes)
    requires id in clear
    ensures RefsOf(clear[id := v]) == RefsOf(clear) <==> SameHashes(v, clear[id])
  {
    hide B.Scan;
    forall h: Hash
      ensures (id, h) in RefsOf(clear) <==> h in B.Scan(clear[id])
      ensures (id, h) in RefsOf(clear[id := v]) <==> h in B.Scan(v)
    {
    }
    forall r: (string, Hash) | r.0 != id ensures r in RefsOf(clear) <==> r in RefsOf(clear[id := v]) {}
    if SameHashes(v, clear[id]) {
      forall r: (string, Hash) ensures r in RefsOf(clear) <==> r in RefsOf(clear[id := v]) { assert r == (r.0, r.1); }
    }
  }

  lemma ApplyKeeps(t: Tables, key: Key, op: Op)
    requires Consistent(t)
    ensures Consistent(Apply(t, key, op))
  {
    hide Consistent, SaveAll, Evicted, Sealed;
    match op
    case Save(inputs) => SaveAllKeeps(t, key, inputs);
    case DeleteById(ids) => RemoveKeeps(t, set id | id in ids);
    case DeleteBySource(source) =>
      if source.Some? { EvictKeeps(t, source.value); }
    case SealRow(id, read, nonce) => SealKeeps(t, key, id, read, nonce);
  }

  /** After any sequence of saves, replacements, deletions and sealings, failed ones included, with a key or without,
      changed or kept, the table holds exactly the pairs a scan of the contents last saved finds. */
  lemma {:induction false} TableFollowsDocuments(steps: seq<Step>)
    ensures Run(steps).refs == RefsOf(Run(steps).saved)
    ensures Run(steps).saved.Keys == Run(steps).docs.Keys && UniqueSources(Run(steps).docs)
    ensures Consistent(Run(steps))
  {
    if steps != [] {
      var init, last := steps[..|steps| - 1], steps[|steps| - 1];
      TableFollowsDocuments(init);
      ApplyKeeps(Run(init), last.key, last.op);
    }
  }

  // ---- the table and what the rows stand for ----

  /** The table lists what the rows stand for. */
  ghost predicate Follows(t: Tables) { t.refs == RefsOf(t.clear) }

  /** It does exactly when every row stands for content with the URIs it was last saved with. */
  lemma FollowsExactly(t: Tables)
    requires Consistent(t)
    ensures Follows(t) <==> forall id | id in t.docs :: SameHashes(t.saved[id], t.clear[id])
  {
    hide B.Scan, UniqueSources;
    if Follows(t) {
      forall id | id in t.docs ensures SameHashes(t.saved[id], t.clear[id]) {
        forall h: Hash ensures h in B.Scan(t.saved[id]) <==> h in B.Scan(t.clear[id]) {
          assert (id, h) in RefsOf(t.saved) <==> h in B.Scan(t.saved[id]);
          assert (id, h) in RefsOf(t.clear) <==> h in B.Scan(t.clear[id]);
        }
      }
    }
    if forall id | id in t.docs :: SameHashes(t.saved[id], t.clear[id]) {
      forall r: (string, Hash) ensures r in RefsOf(t.saved) <==> r in RefsOf(t.clear) {
        if r.0 in t.docs { assert SameHashes(t.saved[r.0], t.clear[r.0]); }
      }
    }
  }

  /** Sealing a row in place keeps the table right exactly when what was read and what the row stands for carry the same
      URIs. */
  lemma SealRowKeeps(t: Tables, key: Key, id: string, read: Bytes, nonce: nat)
    requires Consistent(t) && Follows(t)
    ensures Follows(Apply(t, key, SealRow(id, read, nonce)))
       <==> (Seals(t, key, id, read, nonce) ==> SameHashes(read, t.clear[id]))
  {
    hide B.Scan, E.IsSealed, E.Protected, Written, RefsOf, SameHashes, UniqueSources;
    if Seals(t, key, id, read, nonce) { RefsOfChanged(t.clear, id, read); }
  }

  /** The row still holds what was read, if it is there. */
  predicate Current(t: Tables, op: Op) {
    op.SealRow? && op.id in t.docs ==> t.docs[op.id].content == op.read
  }

  /** Every row sealed in place still held what was read. */
  ghost predicate AllCurrent(steps: seq<Step>) { forall i | 0 <= i < |steps| :: Current(Run(steps[..i]), steps[i].op) }

  lemma {:induction false} SaveAllClear(t: Tables, key: Key, inputs: seq<Input>)
    requires t.saved == t.clear
    ensures SaveAll(t, key, inputs).Some? ==> SaveAll(t, key, inputs).value.saved == SaveAll(t, key, inputs).value.clear
  {
    hide Written, Loads;
    if inputs != [] { SaveAllClear(t, key, inputs[..|inputs| - 1]); }
  }

  /** Then every row stands for what it was last saved with. */
  lemma {:induction false} CurrentIsSaved(steps: seq<Step>)
    requires AllCurrent(steps)
    ensures Run(steps).clear == Run(steps).saved
  {
    hide Consistent, Apply, Current;
    if steps != [] {
      var init, n := steps[..|steps| - 1], |steps| - 1;
      forall i | 0 <= i < n ensures Current(Run(init[..i]), init[i].op) {
        assert init[..i] == steps[..i];
        assert Current(Run(steps[..i]), steps[i].op);
      }
      CurrentIsSaved(init);
      assert Current(Run(steps[..n]), steps[n].op);
      TableFollowsDocuments(init);
      StepClear(Run(init), steps[n].key, steps[n].op);
    }
  }

  lemma StepClear(t: Tables, key: Key, op: Op)
    requires Consistent(t) && Current(t, op) && t.clear == t.saved
    ensures Apply(t, key, op).clear == Apply(t, key, op).saved
  {
    hide Consistent, SaveAll, Written, E.IsSealed;
    match op
    case Save(inputs) => SaveAllClear(t, key, inputs);
    case SealRow(id, read, nonce) => UnprotectedIsClear(t, id);
    case _ =>
  }

  lemma UnprotectedIsClear(t: Tables, id: string)
    requires Consistent(t)
    ensures id in t.docs ==> id in t.clear && (E.Protected(t.docs[id].content) || t.docs[id].content == t.clear[id])
  {
    PlainRow(t, id);
  }

  lemma PlainRow(t: Tables, id: string)
    requires Consistent(t)
    ensures id in t.docs ==> id in t.clear && (E.IsSealed(t.docs[id].content) || t.docs[id].content == t.clear[id])
  {
  }

  /** A migration reads content with a URI, the same document is saved again with nothing in it, and the update goes
      through: the row stands for the old content, and the table lists no reference of it. */
  function Stale(key: Key, v: Bytes, nonce: nat): seq<Step> {
    [Step(None, Save([Input("a", Some("s"), Some(v), 0, true)])),
     Step(None, Save([Input("a", Some("s"), Some([]), 0, true)])),
     Step(key, SealRow("a", v, nonce))]
  }

  lemma StaleSealLosesReferences(key: Key, v: Bytes, h: Hash, nonce: nat)
    requires key.Some? && Written(key, nonce, v).Some? && !E.Protected(v) && h in B.Scan(v)
    ensures var t := Run(Stale(key, v, nonce)); t.refs == {} && ("a", h) in RefsOf(t.clear) && !Follows(t)
  {
    hide B.Scan, Written;
    var steps := Stale(key, v, nonce);
    assert steps[..3] == steps && steps[..3][..2] == steps[..2]
      && steps[..2][..1] == steps[..1] && steps[..1][..0] == [];
    var i, j := Input("a", Some("s"), Some(v), 0, true), Input("a", Some("s"), Some([]), 0, true);
    SaveSingle(Run([]), i);
    FirstSave(i);
    SaveSingle(Run(steps[..1]), j);
    SecondSave(v, j);
    NothingScanned();
    assert Run(steps[..2]).refs == {};
  }

  lemma NothingScanned()
    ensures B.Scan([]) == []
  {
  }

  lemma SaveSingle(t: Tables, i: Input)
    ensures SaveAll(t, None, [i]) == SaveOne(t, None, i)
  {
    assert [i][..0] == [];
    assert SaveAll(t, None, []) == Some(t);
  }

  lemma FirstSave(i: Input)
    requires i.source == Some("s") && i.id == "a" && i.content.Some? && i.sections
    ensures SaveOne(Rows(map[], {}, map[], map[]), None, i)
         == Some(Insert(Rows(map[], {}, map[], map[]), "a", "s", i.content.value, i.content.value))
  {
  }

  lemma SecondSave(v: Bytes, j: Input)
    requires j.source == Some("s") && j.id == "a" && j.content == Some([]) && j.sections
    ensures var t := Insert(Rows(map[], {}, map[], map[]), "a", "s", v, v);
      && SaveOne(t, None, j).Some?
      && SaveOne(t, None, j).value.refs == (set h | h in B.Scan([]) :: ("a", h))
      && SaveOne(t, None, j).value.docs == map["a" := Doc("s", [])]
      && SaveOne(t, None, j).value.clear == map["a" := []]
  {
    hide B.Scan;
    var t := Insert(Rows(map[], {}, map[], map[]), "a", "s", v, v);
    assert t.docs["a"].source == "s";
    assert HolderOf(t.docs, "s") == "a";
    assert Evicted(t, "s").docs == map[] && Evicted(t, "s").refs == {};
  }

  // ---- what a batch leaves ----

  ghost predicate Latest(inputs: seq<Input>, k: nat) {
    k < |inputs| && forall j | k < j < |inputs| :: inputs[j].source != inputs[k].source
  }

  /** The row of an input: its source, its content as the key writes it, and that content as the one saved. */
  ghost predicate RowIs(t: Tables, key: Key, i: Input) {
    && i.source.Some? && i.content.Some? && Written(key, i.nonce, i.content.value).Some?
    && i.id in t.docs && i.id in t.saved && i.id in t.clear
    && t.docs[i.id] == Doc(i.source.value, Written(key, i.nonce, i.content.value).value)
    && t.saved[i.id] == t.clear[i.id] == i.content.value
  }

  predicate SameRow(t: Tables, u: Tables, id: string) {
    && id in t.docs && id in u.docs && u.docs[id] == t.docs[id]
    && id in t.saved && id in u.saved && u.saved[id] == t.saved[id]
    && id in t.clear && id in u.clear && u.clear[id] == t.clear[id]
  }

  lemma SaveOneIs(t: Tables, key: Key, i: Input)
    requires Consistent(t) && SaveOne(t, key, i).Some?
    ensures var u := SaveOne(t, key, i).value;
      && RowIs(u, key, i)
      && (forall id | id in t.docs && Some(t.docs[id].source) != i.source :: SameRow(t, u, id))
      && forall id | id in u.docs && id != i.id :: SameRow(t, u, id)
  {
    EvictedIs(t, i.source.value);
    hide Written, Loads, Evicted, SaveRefs, RefsOf, E.IsSealed;
  }

  lemma EvictedIs(t: Tables, source: string)
    requires Consistent(t)
    ensures var u := Evicted(t, source);
      && (forall id | id in t.docs && t.docs[id].source != source :: SameRow(t, u, id))
      && (forall id | id in u.docs :: SameRow(t, u, id))
      && u.docs.Keys == u.saved.Keys == u.clear.Keys
  {
    hide RefsOf, E.IsSealed, UniqueSources;
  }

  predicate InBatch(inputs: seq<Input>, id: string) { exists i | i in inputs :: i.id == id }

  /** The row of this id is that of one of the inputs. */
  ghost predicate FromBatch(t: Tables, key: Key, inputs: seq<Input>, id: string) {
    exists k: nat :: k < |inputs| && inputs[k].id == id && RowIs(t, key, inputs[k])
  }

  predicate OtherSource(inputs: seq<Input>, source: string) { forall i | i in inputs :: i.source != Some(source) }

  ghost predicate BatchIs(t: Tables, u: Tables, key: Key, inputs: seq<Input>) {
    && (forall k: nat | Latest(inputs, k) :: RowIs(u, key, inputs[k]))
    && (forall id | id in t.docs && OtherSource(inputs, t.docs[id].source) :: SameRow(t, u, id))
    && forall id | id in u.docs :: if InBatch(inputs, id) then FromBatch(u, key, inputs, id) else SameRow(t, u, id)
  }

  /** After a batch, the row of each input that no later one replaced is as the input says, stored as the key writes it;
      rows of other sources are untouched; and no row comes from elsewhere. */
  lemma {:induction false} SaveAllIs(t: Tables, key: Key, inputs: seq<Input>)
    requires Consistent(t) && SaveAll(t, key, inputs).Some?
    ensures BatchIs(t, SaveAll(t, key, inputs).value, key, inputs)
  {
    if inputs == [] {
      assert forall id | id in t.docs :: SameRow(t, t, id);
    } else {
      var init, n := inputs[..|inputs| - 1], |inputs| - 1;
      SaveAllIs(t, key, init);
      SaveAllKeeps(t, key, init);
      SaveOneIs(SaveAll(t, key, init).value, key, inputs[n]);
      hide SaveOne, Consistent, Written, BatchIs, RowIs;
      assert inputs == init + [inputs[n]];
      BatchGrows(t, SaveAll(t, key, init).value, SaveAll(t, key, inputs).value, key, init, inputs[n]);
    }
  }

  lemma BatchGrows(t: Tables, v: Tables, u: Tables, key: Key, init: seq<Input>, x: Input)
    requires BatchIs(t, v, key, init) && RowIs(u, key, x)
    requires forall id | id in v.docs && Some(v.docs[id].source) != x.source :: SameRow(v, u, id)
    requires forall id | id in u.docs && id != x.id :: SameRow(v, u, id)
    ensures BatchIs(t, u, key, init + [x])
  {
    var inputs, n := init + [x], |init|;
    hide Written;
    forall k: nat | Latest(inputs, k) ensures RowIs(u, key, inputs[k]) {
      if k < n {
        LatestBefore(init, x, k);
        assert SameRow(v, u, init[k].id);
      }
    }
    forall id | id in t.docs && OtherSource(inputs, t.docs[id].source) ensures SameRow(t, u, id) {
      assert forall i | i in init :: i in inputs;
      assert x in inputs && OtherSource(init, t.docs[id].source);
      assert SameRow(t, v, id);
    }
    forall id | id in u.docs
      ensures if InBatch(inputs, id) then FromBatch(u, key, inputs, id) else SameRow(t, u, id)
    {
      assert forall i | i in init :: i in inputs;
      if id == x.id {
        assert inputs[n] == x && x in inputs;
      } else {
        assert SameRow(v, u, id);
        if InBatch(init, id) {
          var k: nat :| k < |init| && init[k].id == id && RowIs(v, key, init[k]);
          assert inputs[k] == init[k] && RowIs(u, key, inputs[k]);
        }
      }
    }
  }

  lemma LatestBefore(init: seq<Input>, x: Input, k: nat)
    requires k < |init| && Latest(init + [x], k)
    ensures Latest(init, k) && x.source != init[k].source
  {
    var inputs := init + [x];
    assert inputs[|init|].source != inputs[k].source;
    forall j | k < j < |init| ensures init[j].source != init[k].source { assert inputs[j].source != inputs[k].source; }
  }

  lemma WrittenIsProtected(key: Key, nonce: nat, v: Bytes)
    ensures key.Some? && Written(key, nonce, v).Some? ==> E.Protected(Written(key, nonce, v).value)
  {
    if key.Some? && Written(key, nonce, v).Some? { E.StoredProtects(key.value, nonce, v); }
  }

  ghost predicate AllProtected(t: Tables) { forall id | id in t.docs :: E.Protected(t.docs[id].content) }

  lemma SaveAllProtects(t: Tables, key: Key, inputs: seq<Input>)
    requires Consistent(t) && key.Some? && SaveAll(t, key, inputs).Some?
    ensures var u := SaveAll(t, key, inputs).value;
      && (forall i | i in inputs && i.id in u.docs :: E.Protected(u.docs[i.id].content))
      && (AllProtected(t) ==> AllProtected(u))
  {
    SaveAllIs(t, key, inputs);
    var u := SaveAll(t, key, inputs).value;
    hide SaveAll, Consistent, Written, E.Protected;
    forall id | id in u.docs
      ensures if InBatch(inputs, id) then E.Protected(u.docs[id].content) else SameRow(t, u, id)
    {
      if InBatch(inputs, id) {
        var k: nat :| k < |inputs| && inputs[k].id == id && RowIs(u, key, inputs[k]);
        WrittenIsProtected(key, inputs[k].nonce, inputs[k].content.value);
      }
    }
  }

  /** In a store that has always had a key, whatever key it is, nothing readable is at rest. */
  lemma {:induction false} KeyedStoreIsProtected(steps: seq<Step>)
    requires forall step | step in steps :: step.key.Some?
    ensures AllProtected(Run(steps))
  {
    if steps != [] {
      var init, last := steps[..|steps| - 1], steps[|steps| - 1];
      KeyedStoreIsProtected(init);
      TableFollowsDocuments(init);
      assert last in steps;
      hide Consistent, SaveAll, Written;
      match last.op
      case Save(inputs) =>
        if SaveAll(Run(init), last.key, inputs).Some? { SaveAllProtects(Run(init), last.key, inputs); }
      case SealRow(_, read, nonce) => WrittenIsProtected(last.key, nonce, read);
      case _ =>
    }
  }

  // ---- reading back ----

  /** Every row was written from its clear content, under c or before there was a key. */
  ghost predicate WrittenUnder(c: E.Cipher, docs: map<string, Doc>, clear: map<string, Bytes>) {
    docs.Keys == clear.Keys && forall id | id in docs :: E.StoredAs(c, clear[id], docs[id].content)
  }

  ghost predicate UsesKey(c: E.Cipher, step: Step) { step.key == None || step.key == Some(c) }

  lemma WrittenStays(c: E.Cipher, key: Key, nonce: nat, v: Bytes)
    requires key == None || key == Some(c)
    ensures Written(key, nonce, v).Some? ==> E.StoredAs(c, v, Written(key, nonce, v).value)
  {
  }

  lemma {:induction false} SaveAllUnder(c: E.Cipher, t: Tables, key: Key, inputs: seq<Input>)
    requires WrittenUnder(c, t.docs, t.clear) && (key == None || key == Some(c))
    ensures SaveAll(t, key, inputs).Some? ==>
      var u := SaveAll(t, key, inputs).value; WrittenUnder(c, u.docs, u.clear)
  {
    hide E.StoredAs, Written;
    if inputs != [] {
      var init, i := inputs[..|inputs| - 1], inputs[|inputs| - 1];
      SaveAllUnder(c, t, key, init);
      if i.content.Some? { WrittenStays(c, key, i.nonce, i.content.value); }
    }
  }

  lemma {:induction false} OneKey(c: E.Cipher, steps: seq<Step>)
    requires forall step | step in steps :: UsesKey(c, step)
    ensures WrittenUnder(c, Run(steps).docs, Run(steps).clear)
  {
    hide E.StoredAs, Written, SaveAll;
    if steps != [] {
      var init, last := steps[..|steps| - 1], steps[|steps| - 1];
      OneKey(c, init);
      assert UsesKey(c, last);
      match last.op
      case Save(inputs) => SaveAllUnder(c, Run(init), last.key, inputs);
      case SealRow(_, read, nonce) => WrittenStays(c, last.key, nonce, read);
      case _ =>
    }
  }

  /** Rows written under a key read back as their clear contents exactly when none of these carries the marker. */
  lemma ReadsBack(c: E.Cipher, docs: map<string, Doc>, clear: map<string, Bytes>)
    requires WrittenUnder(c, docs, clear)
    ensures (forall id | id in docs :: Opened(Some(c), docs[id].content) == Some(clear[id]))
       <==> (forall id | id in clear :: !E.IsSealed(clear[id]))
  {
    forall id | id in docs ensures Opened(Some(c), docs[id].content) == Some(clear[id]) <==> !E.IsSealed(clear[id]) {
      E.StoredAsOpens(c, clear[id], docs[id].content);
    }
  }

  /** The hashes that some content carries. */
  function Live(contents: map<string, Bytes>): set<Hash> {
    set id, h | id in contents && h in B.Scan(contents[id]) :: h
  }

  /** The same from a scan of what the rows read back as; None when some row does not open. */
  function ScanLive(key: Key, docs: map<string, Doc>): Option<set<Hash>> {
    if exists id | id in docs :: Opened(key, docs[id].content).None? then None
    else Some(set id, h | id in docs && h in B.Scan(Opened(key, docs[id].content).value) :: h)
  }

  lemma SameLiveSet(key: Key, docs: map<string, Doc>, clear: map<string, Bytes>)
    requires docs.Keys == clear.Keys && forall id | id in docs :: Opened(key, docs[id].content) == Some(clear[id])
    ensures ScanLive(key, docs) == Some(Live(clear))
  {
    hide B.Scan, Opened;
    var scanned := ScanLive(key, docs).value;
    forall h ensures h in scanned <==> h in Live(clear) {}
    assert scanned == Live(clear);
  }

  /** A lawful key that has sealed nothing. */
  ghost function Unused(): (c: E.Cipher)
    ensures forall v: Bytes :: c.decrypt(v).None?
  {
    E.Keyed((n, v) => None, w => None)
  }

  /** However these contents were written, scanning what reads back gives their live set, exactly when none of them
      carries the marker. */
  lemma ScanIsLive(clear: map<string, Bytes>)
    ensures (forall c: E.Cipher, docs | WrittenUnder(c, docs, clear) :: ScanLive(Some(c), docs) == Some(Live(clear)))
       <==> (forall id | id in clear :: !E.IsSealed(clear[id]))
  {
    hide Live, ScanLive, WrittenUnder;
    if forall id | id in clear :: !E.IsSealed(clear[id]) {
      forall c: E.Cipher, docs | WrittenUnder(c, docs, clear) ensures ScanLive(Some(c), docs) == Some(Live(clear)) {
        ReadsBack(c, docs, clear);
        assert docs.Keys == clear.Keys by { UnderKeys(c, docs, clear); }
        SameLiveSet(Some(c), docs, clear);
      }
    } else {
      var id :| id in clear && E.IsSealed(clear[id]);
      AsIs(clear, id);
    }
  }

  lemma UnderKeys(c: E.Cipher, docs: map<string, Doc>, clear: map<string, Bytes>)
    requires WrittenUnder(c, docs, clear)
    ensures docs.Keys == clear.Keys
  {
  }

  lemma AsIs(clear: map<string, Bytes>, id: string)
    requires id in clear && E.IsSealed(clear[id])
    ensures exists c: E.Cipher, docs :: WrittenUnder(c, docs, clear) && ScanLive(Some(c), docs) == None
  {
    var docs := map k | k in clear :: Doc("", clear[k]);
    assert Opened(Some(Unused()), docs[id].content) == None;
    assert WrittenUnder(Unused(), docs, clear) && ScanLive(Some(Unused()), docs) == None;
  }

  /** After any run that used one key or none, and left no content with the marker: a scan of all documents gives the
      live set of what the rows stand for, the table that of what they were last saved with. The two agree when every
      row sealed in place still held what was read. */
  lemma ListIsScan(c: E.Cipher, steps: seq<Step>)
    requires forall step | step in steps :: UsesKey(c, step)
    requires forall id | id in Run(steps).clear :: !E.IsSealed(Run(steps).clear[id])
    ensures ScanLive(Some(c), Run(steps).docs) == Some(Live(Run(steps).clear))
    ensures (set r | r in Run(steps).refs :: r.1) == Live(Run(steps).saved)
    ensures AllCurrent(steps) ==> ScanLive(Some(c), Run(steps).docs) == Some(set r | r in Run(steps).refs :: r.1)
  {
    hide Run, AllCurrent, Consistent, UniqueSources, WrittenUnder, ScanLive;
    var t := Run(steps);
    TableFollowsDocuments(steps);
    if AllCurrent(steps) { CurrentIsSaved(steps); }
    OneKey(c, steps);
    ReadsBack(c, t.docs, t.clear);
    UnderKeys(c, t.docs, t.clear);
    SameLiveSet(Some(c), t.docs, t.clear);
    LiveIsListed(t);
  }

  lemma LiveIsListed(t: Tables)
    requires t.refs == RefsOf(t.saved)
    ensures (set r | r in t.refs :: r.1) == Live(t.saved)
  {
    hide B.Scan;
    var listed := set r | r in t.refs :: r.1;
    forall h ensures h in listed <==> h in Live(t.saved) {
      if h in Live(t.saved) {
        var id :| id in t.saved && h in B.Scan(t.saved[id]);
        assert (id, h) in t.refs;
      }
    }
  }

  // ---- the store ----

  /** First by source; failed is an error of the query, which opens the row. */
  method LoadBySource(docs: map<string, Doc>, key: Key, source: string) returns (failed: bool, id: Option<string>)
    requires UniqueSources(docs)
    ensures failed <==> !Loads(key, docs, source)
    ensures if Holds(docs, source) then id == Some(HolderOf(docs, source)) else id.None?
  {
    var rest := docs.Keys;
    while rest != {}
      invariant rest <= docs.Keys && forall i | i in docs && i !in rest :: docs[i].source != source
      decreases |rest|
    {
      var i :| i in rest;
      if docs[i].source == source { return Opened(key, docs[i].content).None?, Some(i); }
      rest := rest - {i};
    }
    failed, id := false, None;
  }

  predicate RowsFor(references: seq<(string, Hash)>, id: string, hashes: seq<Hash>) {
    && (forall r | r in references :: r.0 == id && r.1 in hashes)
    && forall h | h in hashes :: (id, h) in references
  }

  method UniqueRows(id: string, hashes: seq<Hash>) returns (references: seq<(string, Hash)>)
    ensures RowsFor(references, id, hashes)
  {
    var seen: set<Hash> := {};
    references := [];
    for i := 0 to |hashes|
      invariant (forall h :: h in seen <==> h in hashes[..i]) && RowsFor(references, id, hashes[..i])
    {
      if hashes[i] in seen { continue; }
      seen := seen + {hashes[i]};
      references := references + [(id, hashes[i])];
    }
    assert hashes[..|hashes|] == hashes;
  }

  /** The create of one document, through the callbacks around it: what is stored, and what the caller's document holds
      afterwards. */
  method Create(key: Key, content: Bytes, nonce: nat) returns (stored: Option<Bytes>, after: Bytes)
    ensures stored == Written(key, nonce, content)
    ensures stored.Some? ==> after == content
  {
    match key {
      case None => stored, after := Some(content), content;
      case Some(c) => stored, after := CreateSealed(c, content, nonce);
    }
  }

  method CreateSealed(c: E.Cipher, content: Bytes, nonce: nat) returns (stored: Option<Bytes>, after: Bytes)
    ensures stored == E.Stored(c, nonce, content)
    ensures stored.Some? ==> after == content
  {
    hide E.Stored, E.First, E.SealedUpTo;
    var row := new E.Row(E.DocumentRow, content);
    assert [E.Struct(row)][..0] == [];
    assert E.RootRows([E.Struct(row)]) == {row};
    E.ReachableClosed({row}, {row});
    hide E.RootRows, E.Closed, E.Protected;
    var failed, documents, written;
    ghost var sealed;
    assert E.Contents({row}) == map[row := content];
    failed, documents, written, sealed := E.CreateRows(c, [E.Struct(row)], nonce, {row});
    assert row in documents && forall d | d in documents :: d == row;
    if failed {
      NothingBefore(c, documents, row, nonce, sealed, content);
      stored, after := None, row.content;
    } else {
      E.FirstOfOne(documents, row);
      stored, after := Some(written[row]), row.content;
    }
  }

  lemma NothingBefore(c: E.Cipher, documents: seq<E.Row>, row: E.Row, nonce: nat, k: nat, content: Bytes)
    requires k < |documents| && E.Stuck(c, documents, nonce, k) && forall d | d in documents :: d == row
    requires E.SealedUpTo(c, documents, nonce, {row}, map[row := content], k)
    ensures E.Stored(c, nonce, content).None?
  {
    assert documents[k] in documents && documents[0] in documents;
    E.HeadOfPrefix(documents, k);
  }

  class Store {
    const key: Key
    var docs: map<string, Doc>
    var refs: set<(string, Hash)>
    ghost var saved: map<string, Bytes>
    ghost var clear: map<string, Bytes>

    /** Opens a database, with a key or without. */
    constructor (key: Key, docs: map<string, Doc>, refs: set<(string, Hash)>, ghost saved: map<string, Bytes>,
                 ghost clear: map<string, Bytes>)
      ensures State() == Rows(docs, refs, saved, clear) && this.key == key
    {
      this.key, this.docs, this.refs, this.saved, this.clear := key, docs, refs, saved, clear;
    }

    ghost function State(): Tables
      reads this
    {
      Rows(docs, refs, saved, clear)
    }

    method DeleteBlobReferences(ids: set<string>)
      modifies `refs
      ensures refs == DropRefs(old(refs), ids)
    {
      refs := set r | r in refs && r.0 !in ids;
    }

    /** Deletes rows, and by the declared cascade their references. */
    method DeleteRows(ids: set<string>)
      modifies this
      ensures State() == Remove(old(State()), ids)
    {
      refs := set r | r in refs && r.0 !in ids;
      docs, saved, clear := docs - ids, saved - ids, clear - ids;
    }

    /** Replaces the references of a document; a hash its content names twice is one row. */
    method SaveBlobReferences(id: string, content: Bytes)
      modifies `refs
      ensures refs == SaveRefs(old(refs), id, content)
    {
      DeleteBlobReferences({id});
      var hashes := B.ScanHashes(content);
      if |hashes| == 0 { return; }
      var references := UniqueRows(id, hashes);
      refs := refs + set r | r in references;
    }

    /** One document of a batch; ok is false when the batch must be rolled back. */
    method SaveDocument(i: Input) returns (ok: bool)
      requires UniqueSources(docs)
      modifies this
      ensures ok <==> SaveOne(old(State()), key, i).Some?
      ensures ok ==> State() == SaveOne(old(State()), key, i).value
    {
      hide Written, Loads, B.Scan;
      if i.source.None? { return false; }
      var failed, existing := LoadBySource(docs, key, i.source.value);
      if failed { return false; }
      if existing.Some? && existing.value != "" {
        DeleteBlobReferences({existing.value});
        DeleteRows({existing.value});
      }
      EvictedState(old(State()), i.source.value);
      assert State() == Evicted(old(State()), i.source.value);
      if i.content.None? { return false; }
      var taken := Taken(docs, i.source.value);
      if i.id in docs || taken { return false; }
      var stored, after := Create(key, i.content.value, i.nonce);
      if stored.None? { return false; }
      docs := docs[i.id := Doc(i.source.value, stored.value)];
      saved, clear := saved[i.id := i.content.value], clear[i.id := i.content.value];
      SaveBlobReferences(i.id, after);
      ok := i.sections;
    }

    /** The whole batch in one transaction. */
    method SaveDocuments(inputs: seq<Input>) returns (ok: bool)
      requires Consistent(State())
      modifies this
      ensures Consistent(State()) && State() == Apply(old(State()), key, Save(inputs))
      ensures ok <==> SaveAll(old(State()), key, inputs).Some?
      ensures !ok ==> State() == old(State())
      ensures ok ==> BatchIs(old(State()), State(), key, inputs)
      ensures ok && key.Some? ==> forall i | i in inputs && i.id in docs :: E.Protected(docs[i.id].content)
    {
      hide SaveOne, RefsOf, BatchIs, E.Protected;
      ghost var start := State();
      var docs0, refs0 := docs, refs;
      assert inputs[..0] == [];
      for i := 0 to |inputs|
        invariant SaveAll(start, key, inputs[..i]) == Some(State()) && Consistent(State())
      {
        assert inputs[..i + 1][..i] == inputs[..i];
        SaveOneKeeps(State(), key, inputs[i]);
        ok := SaveDocument(inputs[i]);
        if !ok {
          SaveFails(start, key, inputs, i + 1);
          docs, refs, saved, clear := docs0, refs0, start.saved, start.clear;
          return false;
        }
      }
      assert inputs[..|inputs|] == inputs;
      SaveAllIs(start, key, inputs);
      if key.Some? { SaveAllProtects(start, key, inputs); }
      ok := true;
    }

    method DeleteDocumentById(ids: seq<string>)
      requires Consistent(State())
      modifies this
      ensures Consistent(State()) && State() == Apply(old(State()), key, DeleteById(ids))
      ensures forall id :: id in docs <==> id in old(docs) && id !in ids
      ensures forall id | id in docs :: docs[id] == old(docs)[id]
    {
      ApplyKeeps(State(), key, DeleteById(ids));
      var gone := set id | id in ids;
      DeleteBlobReferences(gone);
      DeleteRows(gone);
    }

    /** A missing source is an error, an unknown one is not; the row found must open, and only the cascade takes its
        references. */
    method DeleteDocumentBySource(source: Option<string>) returns (ok: bool)
      requires Consistent(State())
      modifies this
      ensures Consistent(State()) && State() == Apply(old(State()), key, DeleteBySource(source))
      ensures ok <==> !DeleteFails(old(State()), key, source)
      ensures ok ==> !Holds(docs, source.value)
      ensures forall id :: id in docs <==> id in old(docs) && !(ok && old(docs)[id].source == source.value)
      ensures forall id | id in docs :: docs[id] == old(docs)[id]
    {
      hide Opened, RefsOf;
      ApplyKeeps(State(), key, DeleteBySource(source));
      if source.None? { return false; }
      var failed, existing := LoadBySource(docs, key, source.value);
      if failed || existing == Some("") { return false; }
      if existing.Some? { DeleteRows({existing.value}); }
      ok := true;
    }

    /** One raw update of the migration. */
    method SealRowInPlace(id: string, read: Bytes, nonce: nat) returns (ok: bool)
      requires key.Some? && !E.Protected(read)
      modifies this
      ensures State() == Apply(old(State()), key, SealRow(id, read, nonce))
      ensures ok <==> Written(key, nonce, read).Some?
      ensures !ok ==> State() == old(State())
    {
      E.StoredCases(key.value, nonce, read);
      var value := E.Seal(key.value, nonce, read);
      if value.None? { return false; }
      if id in docs { docs, clear := docs[id := Doc(docs[id].source, value.value)], clear[id := read]; }
      ok := true;
    }

    /** A row stored in clear is sealed; any other is left. */
    method MigrateRow(id: string, read: Bytes, nonce: nat, ghost start: Tables, ghost rest: set<string>)
      returns (ok: bool)
      requires key.Some? && Migrated(start, State(), key.value, rest)
      requires id in rest && id in start.docs && read == start.docs[id].content
      modifies this
      ensures Migrated(start, State(), key.value, if ok then rest - {id} else rest)
    {
      hide E.Protected, Apply, Migrated;
      MigrateNext(start, State(), key, rest, id, nonce);
      ok := true;
      if !E.Protected(read) { ok := SealRowInPlace(id, read, nonce); }
    }

    method MigrateRows(nonce: nat) returns (ok: bool, sealed: nat, skipped: nat, ghost rest: set<string>)
      requires key.Some? && Consistent(State())
      modifies this
      ensures Migrated(old(State()), State(), key.value, rest)
      ensures ok ==> rest == {} && sealed + skipped == |old(docs)|
    {
      hide E.Protected, Consistent, Migrated;
      MigrateStart(State(), key.value);
      ghost var start := State();
      var rows, left := docs, docs.Keys;
      sealed, skipped := 0, 0;
      while left != {}
        invariant left <= rows.Keys && sealed + skipped + |left| == |rows|
        invariant Migrated(start, State(), key.value, left)
        decreases |left|
      {
        var id :| id in left;
        ok := MigrateRow(id, rows[id].content, nonce + sealed, start, left);
        if !ok { return false, sealed, skipped, left; }
        if E.Protected(rows[id].content) { skipped := skipped + 1; } else { sealed := sealed + 1; }
        left := left - {id};
      }
      ok, rest := true, {};
    }

    /** Every row stored in clear is sealed, one commit a row; the references and the contents the rows stand for do not
        change, even when it stops half way. */
    method EncryptExistingDocuments(nonce: nat) returns (ok: bool, sealed: nat, skipped: nat)
      requires Consistent(State())
      modifies this
      ensures Consistent(State()) && refs == old(refs) && saved == old(saved) && clear == old(clear)
      ensures docs.Keys == old(docs).Keys
      ensures key.None? ==> !ok && docs == old(docs)
      ensures key.Some? ==> forall id | id in docs ::
        docs[id].source == old(docs)[id].source && E.StoredAs(key.value, old(docs)[id].content, docs[id].content)
      ensures ok ==> sealed + skipped == |docs| && forall id | id in docs :: E.Protected(docs[id].content)
    {
      hide E.StoredAs, E.Protected, Consistent, Migrated;
      if key.None? { return false, 0, 0; }
      ghost var start, rest := State(), {};
      ok, sealed, skipped, rest := MigrateRows(nonce);
      MigrateStops(start, State(), key.value, rest);
      assert |docs.Keys| == |old(docs).Keys|;
    }
  }

  /** The migration so far: rest is still as it was. */
  ghost predicate Migrated(start: Tables, now: Tables, c: E.Cipher, rest: set<string>) {
    && Consistent(now) && now.refs == start.refs && now.saved == start.saved
    && now.clear == start.clear && now.docs.Keys == start.docs.Keys
    && (forall id | id in now.docs && id in rest :: now.docs[id] == start.docs[id])
    && (forall id | id in now.docs ::
          now.docs[id].source == start.docs[id].source && E.StoredAs(c, start.docs[id].content, now.docs[id].content))
    && forall id | id in now.docs && id !in rest :: E.Protected(now.docs[id].content)
  }

  lemma MigrateStart(t: Tables, c: E.Cipher)
    requires Consistent(t)
    ensures Migrated(t, t, c, t.docs.Keys)
  {
    hide Consistent;
  }

  lemma MigrateStops(start: Tables, now: Tables, c: E.Cipher, rest: set<string>)
    requires Migrated(start, now, c, rest)
    ensures Consistent(now) && now.refs == start.refs && now.saved == start.saved
    ensures now.clear == start.clear && now.docs.Keys == start.docs.Keys
    ensures forall id | id in now.docs ::
      now.docs[id].source == start.docs[id].source && E.StoredAs(c, start.docs[id].content, now.docs[id].content)
    ensures rest == {} ==> forall id | id in now.docs :: E.Protected(now.docs[id].content)
  {
    hide Consistent, E.StoredAs, E.Protected;
  }

  lemma MigrateNext(start: Tables, now: Tables, key: Key, rest: set<string>, id: string, nonce: nat)
    requires key.Some? && Migrated(start, now, key.value, rest) && id in rest && id in start.docs
    ensures var read := start.docs[id].content;
      if E.Protected(read) then Migrated(start, now, key.value, rest - {id})
      else Written(key, nonce, read).Some? ==>
        Migrated(start, Apply(now, key, SealRow(id, read, nonce)), key.value, rest - {id})
  {
    hide Consistent, E.StoredAs, E.Protected, Apply, Written;
    if !E.Protected(start.docs[id].content) { SealStep(now, key, id, nonce); }
  }

  lemma SealStep(t: Tables, key: Key, id: string, nonce: nat)
    requires Consistent(t) && key.Some? && id in t.docs && !E.Protected(t.docs[id].content)
    ensures var u := Apply(t, key, SealRow(id, t.docs[id].content, nonce));
      && Consistent(u) && u.clear == t.clear && u.saved == t.saved && u.refs == t.refs && u.docs.Keys == t.docs.Keys
      && u.docs == t.docs[id := u.docs[id]] && u.docs[id].source == t.docs[id].source
      && (Written(key, nonce, t.docs[id].content).Some? ==>
            E.StoredAs(key.value, t.docs[id].content, u.docs[id].content) && E.Protected(u.docs[id].content))
  {
    var op := SealRow(id, t.docs[id].content, nonce);
    ApplyKeeps(t, key, op);
    WrittenStays(key.value, key, nonce, t.docs[id].content);
    PlainRow(t, id);
    if Written(key, nonce, t.docs[id].content).Some? { E.StoredProtects(key.value, nonce, t.docs[id].content); }
  }

  /** The unique index on the source. */
  method Taken(docs: map<string, Doc>, source: string) returns (taken: bool)
    ensures taken <==> Holds(docs, source)
  {
    taken := exists id | id in docs :: docs[id].source == source;
  }

  lemma EvictedState(t: Tables, source: string)
    requires UniqueSources(t.docs)
    ensures UniqueSources(Evicted(t, source).docs)
    ensures Holds(t.docs, source) ==>
      forall id | id in t.docs && t.docs[id].source == source :: id == HolderOf(t.docs, source)
  {
  }

  lemma {:induction false} SaveFails(t: Tables, key: Key, inputs: seq<Input>, i: nat)
    requires i <= |inputs| && SaveAll(t, key, inputs[..i]).None?
    ensures SaveAll(t, key, inputs).None?
    decreases |inputs| - i
  {
    if i == |inputs| {
      assert inputs[..i] == inputs;
    } else {
      assert inputs[..i + 1][..i] == inputs[..i];
      SaveFails(t, key, inputs, i + 1);
    }
  }
}
