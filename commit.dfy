/** What ApplyUpdates, recordSavepoint and the read paths of VersionedDB do,
    stated as functions of the cache, the database and the failures the
    environment chooses; and what follows from it. */
module CommitSpec {
  import opened Wrappers
  import opened ByteStrings
  import opened CompositeKeys
  import opened Versions
  import opened Documents
  import opened Errors
  import opened Store
  import opened VersionCache
  import opened Scanners
  import opened Utf8

  /** One entry of an UpdateBatch: a nil value deletes the key. */
  datatype Update = Update(namespace: Bytes, key: Bytes, value: Option<Bytes>, version: Height)

  function KeyOf(u: Update): CompositeKey
  {
    CompositeKey(u.namespace, u.key)
  }

  /** An UpdateBatch holds each (namespace, key) at most once. */
  predicate DistinctKeys(batch: seq<Update>)
  {
    forall i, j :: 0 <= i < j < |batch| ==> KeyOf(batch[i]) != KeyOf(batch[j])
  }

  predicate SeparatorFreeBatch(batch: seq<Update>)
  {
    forall i :: 0 <= i < |batch| ==> SeparatorFree(batch[i].namespace)
  }

  /** Namespace and key are well-formed UTF-8, as ValidateKey demands of a
      key before it is written; the document identifier then reaches the
      database as it was built. */
  predicate Utf8Update(u: Update)
  {
    ValidUtf8(u.namespace) && ValidUtf8(u.key)
  }

  predicate Utf8Batch(batch: seq<Update>)
  {
    forall i :: 0 <= i < |batch| ==> Utf8Update(batch[i])
  }

  /** What an operation did: its error, the database afterwards and the calls made. */
  datatype Effect = Effect(err: Option<Error>, state: DbState, calls: seq<Call>)

  // ---------------------------------------------------------------- reads

  /** What GetState finds in the database under `id`: nothing, or the value
      and version removeDataWrapper reads from the document. */
  function StoredValue(codec: JsonCodec, docs: map<Bytes, StoredDoc>, id: Bytes): (r: Option<VersionedValue>)
    requires WellFormedDocs(docs)
    ensures r.Some? <==> id in docs && docs[id].body.StateBody?
    ensures r.Some? ==> r.value.version == Some(CreateVersionFromString(docs[id].body.fields.version))
  {
    if id in docs && docs[id].body.StateBody? then
      var (v, h) := Unwrapped(codec, docs[id].body.fields, docs[id].body.attachments);
      Some(VersionedValue(Some(v), Some(h)))
    else None
  }

  /** GetState answers from the cache only when both the value and the
      version maps hold the key. */
  predicate CacheHit(c: CacheView, k: CompositeKey)
  {
    k in c.values && k in c.versions
  }

  /** What GetState answers when it does not fail. */
  function StateView(codec: JsonCodec, c: CacheView, docs: map<Bytes, StoredDoc>, k: CompositeKey): Option<VersionedValue>
    requires WellFormedDocs(docs)
  {
    if CacheHit(c, k) then Some(VersionedValue(c.values[k], c.versions[k]))
    else StoredValue(codec, docs, IdOf(k))
  }

  /** The composite keys GetStateMultipleKeys asks for. */
  function KeysIn(ns: Bytes, keys: seq<Bytes>): (cks: seq<CompositeKey>)
    ensures |cks| == |keys| && forall i :: 0 <= i < |keys| ==> cks[i] == CompositeKey(ns, keys[i])
  {
    seq(|keys|, i requires 0 <= i < |keys| => CompositeKey(ns, keys[i]))
  }

  /** What GetState answers, key by key, for the keys of one namespace. */
  function MultiKeyView(codec: JsonCodec, c: CacheView, docs: map<Bytes, StoredDoc>, ns: Bytes, keys: seq<Bytes>): (vs: seq<Option<VersionedValue>>)
    requires WellFormedDocs(docs)
    ensures |vs| == |keys|
    ensures forall i :: 0 <= i < |keys| ==> vs[i] == StateView(codec, c, docs, CompositeKey(ns, keys[i]))
  {
    seq(|keys|, i requires 0 <= i < |keys| => StateView(codec, c, docs, CompositeKey(ns, keys[i])))
  }

  predicate AllCached(c: CacheView, ns: Bytes, keys: seq<Bytes>)
  {
    forall i :: 0 <= i < |keys| ==> CacheHit(c, CompositeKey(ns, keys[i]))
  }

  /** What GetStateMultipleKeys returns once its cache is loaded: the
      failure of the first GetState that reaches a failing database, or every
      key's answer in order. */
  function MultiKeySpec(codec: JsonCodec, c: CacheView, docs: map<Bytes, StoredDoc>, readFails: bool,
                        ns: Bytes, keys: seq<Bytes>): Result<seq<Option<VersionedValue>>, Error>
    requires WellFormedDocs(docs)
  {
    if readFails && !AllCached(c, ns, keys) then Failure(StoreError) else Success(MultiKeyView(codec, c, docs, ns, keys))
  }

  /** GetStateMultipleKeys, key by key, starting from a cache that holds no
      value for the key: a key the bulk read reports comes back with its
      version but a nil value, because LoadCommittedValues stores a nil value
      for it; any other key is read from the database by GetState. */
  lemma MultiKeyRead(codec: JsonCodec, c: CacheView, docs: map<Bytes, StoredDoc>, retrieveFails: bool,
                     ns: Bytes, keys: seq<Bytes>, i: nat)
    requires WellFormedDocs(docs) && SeparatorFree(ns) && i < |keys|
    requires CompositeKey(ns, keys[i]) !in c.values
    ensures var cks := KeysIn(ns, keys);
            var k := cks[i];
            var c1 := Load(c, cks, RowsFor(docs, retrieveFails, cks), true);
            && (Reported(docs, retrieveFails, k) ==>
                  Colon in docs[IdOf(k)].body.fields.version
                  && StateView(codec, c1, docs, k)
                     == Some(VersionedValue(None, Some(CreateVersionFromString(docs[IdOf(k)].body.fields.version)))))
            && (!Reported(docs, retrieveFails, k) ==> StateView(codec, c1, docs, k) == StoredValue(codec, docs, IdOf(k)))
  {
    var cks := KeysIn(ns, keys);
    assert cks[i] in cks;
    LoadAt(c, docs, retrieveFails, cks, true, cks[i]);
  }

  /** What GetLatestSavePoint reads: the height in the savepoint document.
      A state document under that identifier would unmarshal to height 0:0. */
  function SavepointOf(docs: map<Bytes, StoredDoc>): Option<Height>
  {
    if SavepointDocId !in docs then None
    else match docs[SavepointDocId].body
         case SavepointBody(b, t, _) => Some(Height(b, t))
         case StateBody(_, _) => Some(Height(0, 0))
  }

  /** What GetVersion answers as written: the cached version when the
      version map holds the key, and nothing after any successful read. */
  function VersionAsWritten(c: CacheView, k: CompositeKey): Option<Height>
  {
    if k in c.versions then c.versions[k] else None
  }

  /** The version of the state document under `id`, nothing when there is none. */
  function StoredVersion(docs: map<Bytes, StoredDoc>, id: Bytes): (r: Option<Height>)
    requires WellFormedDocs(docs)
    ensures r.Some? <==> id in docs && docs[id].body.StateBody?
  {
    if id in docs && docs[id].body.StateBody? then Some(CreateVersionFromString(docs[id].body.fields.version))
    else None
  }

  /** After a miss in the version map, the stored version is exactly the
      version GetState reports for the key. */
  lemma StoredVersionMatchesState(codec: JsonCodec, c: CacheView, docs: map<Bytes, StoredDoc>, k: CompositeKey)
    requires WellFormedDocs(docs) && k !in c.versions
    ensures StoredVersion(docs, IdOf(k)) == match StateView(codec, c, docs, k) case None => None case Some(vv) => vv.version
  {
    assert !CacheHit(c, k);
  }

  /** As written, a key the cache lacks has no version even when the database
      holds a document for it at height h. */
  lemma VersionMissIgnoresDatabase(h: Height)
    ensures var k := CompositeKey([0x61], [0x62]);
            var doc := StoredDoc([0x31], StateBody(DocFields(IdOf(k), None, FormatVersion(h), false, None, None), None));
            var docs := map[IdOf(k) := doc];
            && WellFormedDocs(docs)
            && VersionAsWritten(EmptyCache, k) == None
            && StoredVersion(docs, IdOf(k)) == Some(h)
  {
    VersionRoundTrip(h);
  }

  // --------------------------------------------------------------- writes

  /** The batch keys whose revision the cache does not hold, in batch order. */
  function MissingKeys(revisions: map<CompositeKey, Bytes>, batch: seq<Update>): (m: seq<CompositeKey>)
    ensures forall k :: k in m <==> k !in revisions && exists i :: 0 <= i < |batch| && KeyOf(batch[i]) == k
  {
    if batch == [] then []
    else
      var init := batch[..|batch| - 1];
      var k := KeyOf(batch[|batch| - 1]);
      assert forall i :: 0 <= i < |init| ==> init[i] == batch[i];
      if k in revisions then MissingKeys(revisions, init) else MissingKeys(revisions, init) + [k]
  }

  /** The revision ApplyUpdates sends for `k`: the cached one, else the empty string. */
  function RevisionOf(revisions: map<CompositeKey, Bytes>, k: CompositeKey): Bytes
  {
    if k in revisions then revisions[k] else []
  }

  function DocumentFor(codec: JsonCodec, revisions: map<CompositeKey, Bytes>, u: Update): CouchDoc
  {
    BuildDocument(codec, u.namespace, u.key, RevisionOf(revisions, KeyOf(u)), u.value, u.version)
  }

  /** The documents ApplyUpdates sends, one per update, in batch order. */
  function BatchDocuments(codec: JsonCodec, revisions: map<CompositeKey, Bytes>, batch: seq<Update>): (ds: seq<CouchDoc>)
    ensures |ds| == |batch|
    ensures forall i :: 0 <= i < |batch| ==> ds[i] == DocumentFor(codec, revisions, batch[i])
  {
    seq(|batch|, i requires 0 <= i < |batch| => DocumentFor(codec, revisions, batch[i]))
  }

  lemma BatchDocumentsSnoc(codec: JsonCodec, revisions: map<CompositeKey, Bytes>, batch: seq<Update>, u: Update)
    ensures BatchDocuments(codec, revisions, batch + [u])
         == BatchDocuments(codec, revisions, batch) + [DocumentFor(codec, revisions, u)]
  {
    var ds := BatchDocuments(codec, revisions, batch + [u]);
    var ds0 := BatchDocuments(codec, revisions, batch);
    forall i | 0 <= i < |batch|
      ensures ds[i] == ds0[i]
    {
      assert (batch + [u])[i] == batch[i];
    }
  }

  /** One step of the loop that builds the documents: the prefix one update
      longer has that update's document appended. */
  lemma BatchDocumentsStep(codec: JsonCodec, revisions: map<CompositeKey, Bytes>, batch: seq<Update>, i: nat)
    requires i < |batch|
    ensures BatchDocuments(codec, revisions, batch[..i + 1])
         == BatchDocuments(codec, revisions, batch[..i])
            + [BuildDocument(codec, batch[i].namespace, batch[i].key, RevisionOf(revisions, KeyOf(batch[i])),
                             batch[i].value, batch[i].version)]
  {
    assert batch[..i + 1] == batch[..i] + [batch[i]];
    BatchDocumentsSnoc(codec, revisions, batch[..i], batch[i]);
  }

  /** Each document sent lives under its update's composite key as
      json.Marshal writes it (the key itself for well-formed UTF-8), carries
      the cached revision (none when the cached revision is empty or absent),
      is a tombstone exactly for a nil value, and has a parsable version. */
  lemma BatchDocumentsShape(codec: JsonCodec, revisions: map<CompositeKey, Bytes>, batch: seq<Update>)
    ensures var ds := BatchDocuments(codec, revisions, batch);
            forall i :: 0 <= i < |batch| ==>
              && ds[i].fields.id == JsonString(IdOf(KeyOf(batch[i])))
              && (Utf8Update(batch[i]) ==> ds[i].fields.id == IdOf(KeyOf(batch[i])))
              && (ds[i].fields.rev.Some? <==> RevisionOf(revisions, KeyOf(batch[i])) != [])
              && (ds[i].fields.rev.Some? ==> ds[i].fields.rev.value == RevisionOf(revisions, KeyOf(batch[i])))
              && (ds[i].fields.deleted <==> batch[i].value.None?)
              && WellFormedWrite(ds[i])
  {
    var ds := BatchDocuments(codec, revisions, batch);
    forall i | 0 <= i < |batch|
      ensures ds[i].fields.id == JsonString(IdOf(KeyOf(batch[i]))) && WellFormedWrite(ds[i])
      ensures Utf8Update(batch[i]) ==> ds[i].fields.id == IdOf(KeyOf(batch[i]))
    {
      var u := batch[i];
      assert ds[i] == DocumentFor(codec, revisions, u);
      BuildDocumentShape(codec, u.namespace, u.key, RevisionOf(revisions, KeyOf(u)), u.value, u.version);
    }
  }

  /** The cache after ApplyUpdates' revision load: LoadCommittedVersions runs
      only when some batch key is missing from the revision map. */
  function CacheAfterLoad(c: CacheView, docs: map<Bytes, StoredDoc>, retrieveFails: bool, batch: seq<Update>): CacheView
    requires WellFormedDocs(docs)
  {
    var missing := MissingKeys(c.revisions, batch);
    if missing == [] then c else Load(c, missing, RowsFor(docs, retrieveFails, missing), false)
  }

  function LoadCalls(c: CacheView, batch: seq<Update>): seq<Call>
  {
    var missing := MissingKeys(c.revisions, batch);
    if missing == [] then [] else [Call.BatchRetrieve(IdsOf(missing), false)]
  }

  /** recordSavepoint: full commit first, then the update sequence, then the
      savepoint document; it stops at the first failure. */
  function SavepointSpec(st: DbState, faults: Faults, h: Height): Effect
  {
    if faults.fullCommit != CommitOk then Effect(Some(FullCommitFailed), st, [Call.EnsureFullCommit])
    else if faults.infoFails then Effect(Some(StoreError), st, [Call.EnsureFullCommit, Call.GetDatabaseInfo])
    else if faults.saveFails then
      Effect(Some(StoreError), st, [Call.EnsureFullCommit, Call.GetDatabaseInfo, Call.SaveDoc(SavepointDocId)])
    else
      var body := SavepointBody(h.blockNum, h.txNum, FormatUint(st.updateSeq));
      Effect(None, DbState(st.docs[SavepointDocId := StoredDoc(FormatUint(st.updateSeq + 1), body)], st.updateSeq + 1),
             [Call.EnsureFullCommit, Call.GetDatabaseInfo, Call.SaveDoc(SavepointDocId)])
  }

  /** The response of the first refused document. */
  function FirstRefused(rs: seq<BulkResponse>): BulkResponse
    requires !AllOk(rs)
  {
    if !rs[0].ok then rs[0] else FirstRefused(rs[1..])
  }

  /** The error ApplyUpdates returns for a refused document: its identifier
      and CouchDB's error and reason for it. */
  function NotSaved(resp: BulkResponse): Error
  {
    DocumentNotSaved(resp.id, resp.error, resp.reason)
  }

  lemma {:induction false} FirstRefusedAt(rs: seq<BulkResponse>, i: nat)
    requires i < |rs| && !rs[i].ok && AllOk(rs[..i])
    ensures !AllOk(rs) && FirstRefused(rs) == rs[i]
  {
    if i > 0 {
      assert rs[0] == rs[..i][0];
      assert rs[1..][..i - 1] == rs[..i][1..];
      FirstRefusedAt(rs[1..], i - 1);
    }
  }

  /** What ApplyUpdates does once the documents are built: send them, stop at
      a transport failure or at the first refused document, and only then
      record the savepoint. */
  function CommitDocuments(st: DbState, faults: Faults, ds: seq<CouchDoc>, h: Height): Effect
  {
    if ds == [] then SavepointSpec(st, faults, h)
    else if faults.bulkFails then Effect(Some(StoreError), st, [Call.BatchUpdateDocuments(ds)])
    else
      var written := BulkApply(st, ds);
      if !AllOk(written.1) then
        Effect(Some(NotSaved(FirstRefused(written.1))), written.0, [Call.BatchUpdateDocuments(ds)])
      else
        var e := SavepointSpec(written.0, faults, h);
        e.(calls := [Call.BatchUpdateDocuments(ds)] + e.calls)
  }

  /** The first refused response is one of the responses. */
  lemma {:induction false} FirstRefusedIn(rs: seq<BulkResponse>) returns (i: nat)
    requires !AllOk(rs)
    ensures i < |rs| && !rs[i].ok && FirstRefused(rs) == rs[i]
  {
    if rs[0].ok {
      var j := FirstRefusedIn(rs[1..]);
      i := j + 1;
    } else {
      i := 0;
    }
  }

  /** A commit stopped by a refused document reports one of the documents it
      sent, with CouchDB's update conflict as error and reason. */
  lemma RefusedCommitIsConflict(st: DbState, faults: Faults, ds: seq<CouchDoc>, h: Height)
    requires ds != [] && !faults.bulkFails && !AllOk(BulkApply(st, ds).1)
    ensures exists i :: 0 <= i < |ds| &&
              CommitDocuments(st, faults, ds, h).err == Some(DocumentNotSaved(ds[i].fields.id, ConflictError, ConflictReason))
  {
    var rs := BulkApply(st, ds).1;
    var i := FirstRefusedIn(rs);
    BulkRefusalsAreConflicts(st, ds, i);
    assert CommitDocuments(st, faults, ds, h).err == Some(DocumentNotSaved(ds[i].fields.id, ConflictError, ConflictReason));
  }

  /** The three ways a commit of documents ends, by the bulk write's outcome. */
  lemma CommitDocumentsCases(st: DbState, faults: Faults, ds: seq<CouchDoc>, h: Height)
    ensures var e := CommitDocuments(st, faults, ds, h);
            var written := BulkApply(st, ds);
            var sp := SavepointSpec(st, faults, h);
            var sp1 := SavepointSpec(written.0, faults, h);
            && (ds == [] ==> e == sp)
            && (ds != [] && faults.bulkFails ==> e == Effect(Some(StoreError), st, [Call.BatchUpdateDocuments(ds)]))
            && (ds != [] && !faults.bulkFails && !AllOk(written.1) ==>
                  e == Effect(Some(NotSaved(FirstRefused(written.1))), written.0, [Call.BatchUpdateDocuments(ds)]))
            && (ds != [] && !faults.bulkFails && AllOk(written.1) ==>
                  e == sp1.(calls := [Call.BatchUpdateDocuments(ds)] + sp1.calls))
  {
    if ds != [] && !faults.bulkFails {
      var written := BulkApply(st, ds);
      if AllOk(written.1) {
        var sp1 := SavepointSpec(written.0, faults, h);
        assert CommitDocuments(st, faults, ds, h) == sp1.(calls := [Call.BatchUpdateDocuments(ds)] + sp1.calls);
      }
    }
  }

  lemma SavepointSaves(st: DbState, faults: Faults, h: Height)
    ensures Call.SaveDoc(SavepointDocId) in SavepointSpec(st, faults, h).calls <==>
              faults.fullCommit == CommitOk && !faults.infoFails
  {
    if faults.fullCommit == CommitOk && !faults.infoFails {
      assert SavepointSpec(st, faults, h).calls[2] == Call.SaveDoc(SavepointDocId);
    }
  }

  /** The savepoint document is sent exactly when the full commit and the
      database info succeeded after every document was accepted. */
  lemma CommitDocumentsSaves(st: DbState, faults: Faults, ds: seq<CouchDoc>, h: Height)
    ensures var e := CommitDocuments(st, faults, ds, h);
            Call.SaveDoc(SavepointDocId) in e.calls <==>
              && faults.fullCommit == CommitOk && !faults.infoFails
              && (ds == [] || (!faults.bulkFails && AllOk(BulkApply(st, ds).1)))
  {
    CommitDocumentsCases(st, faults, ds, h);
    var written := BulkApply(st, ds);
    var e := CommitDocuments(st, faults, ds, h);
    if ds == [] {
      SavepointSaves(st, faults, h);
    } else if faults.bulkFails || !AllOk(written.1) {
      assert e.calls == [Call.BatchUpdateDocuments(ds)];
    } else {
      var sp1 := SavepointSpec(written.0, faults, h);
      SavepointSaves(written.0, faults, h);
      assert e.calls == [Call.BatchUpdateDocuments(ds)] + sp1.calls;
    }
  }

  /** A savepoint recorded without error holds the height, and it is the
      only document the recording changes. */
  lemma SavepointHolds(st: DbState, faults: Faults, h: Height)
    ensures var e := SavepointSpec(st, faults, h);
            && (e.err.None? ==> SavepointOf(e.state.docs) == Some(h))
            && (forall id :: id != SavepointDocId ==>
                  (id in e.state.docs <==> id in st.docs) && (id in st.docs ==> e.state.docs[id] == st.docs[id]))
  {
  }

  lemma CommitDocumentsHeight(st: DbState, faults: Faults, ds: seq<CouchDoc>, h: Height)
    ensures var e := CommitDocuments(st, faults, ds, h);
            e.err.None? ==> SavepointOf(e.state.docs) == Some(h)
  {
    CommitDocumentsCases(st, faults, ds, h);
    if ds == [] {
      SavepointHolds(st, faults, h);
    } else {
      SavepointHolds(BulkApply(st, ds).0, faults, h);
    }
  }

  /** The revision load only reads, so a call other than a bulk read is made
      by ApplyUpdates exactly when it is made by the commit of the documents. */
  lemma LoadCallsOnlyRead(c: CacheView, batch: seq<Update>, calls: seq<Call>, x: Call)
    requires !x.BatchRetrieve?
    ensures x in LoadCalls(c, batch) + calls <==> x in calls
  {
  }

  /** The documents ApplyUpdates sends, after its revision load. */
  function SentDocuments(codec: JsonCodec, c: CacheView, docs: map<Bytes, StoredDoc>, retrieveFails: bool, batch: seq<Update>): seq<CouchDoc>
    requires WellFormedDocs(docs)
  {
    BatchDocuments(codec, CacheAfterLoad(c, docs, retrieveFails, batch).revisions, batch)
  }

  /** ApplyUpdates: load the missing revisions, build one document per
      update, then commit them. */
  function ApplyUpdatesSpec(codec: JsonCodec, c: CacheView, st: DbState, faults: Faults, batch: seq<Update>, h: Height): Effect
    requires WellFormedDocs(st.docs)
  {
    var e := CommitDocuments(st, faults, SentDocuments(codec, c, st.docs, faults.retrieveFails, batch), h);
    e.(calls := LoadCalls(c, batch) + e.calls)
  }

  lemma CallsAssociate(a: seq<Call>, b: seq<Call>, c: seq<Call>)
    ensures a + (b + c) == (a + b) + c
  {
  }

  /** ApplyUpdates is its revision load followed by the commit of the documents it sends. */
  lemma ApplyUpdatesSteps(codec: JsonCodec, c: CacheView, st: DbState, faults: Faults, batch: seq<Update>, h: Height)
    requires WellFormedDocs(st.docs)
    ensures var ds := SentDocuments(codec, c, st.docs, faults.retrieveFails, batch);
            var e := CommitDocuments(st, faults, ds, h);
            && (forall i :: 0 <= i < |ds| ==> WellFormedWrite(ds[i]))
            && ApplyUpdatesSpec(codec, c, st, faults, batch, h) == e.(calls := LoadCalls(c, batch) + e.calls)
  {
    var ds := SentDocuments(codec, c, st.docs, faults.retrieveFails, batch);
    var e := CommitDocuments(st, faults, ds, h);
    BatchDocumentsShape(codec, CacheAfterLoad(c, st.docs, faults.retrieveFails, batch).revisions, batch);
    assert ApplyUpdatesSpec(codec, c, st, faults, batch, h) == e.(calls := LoadCalls(c, batch) + e.calls);
  }

  // ------------------------------------------------------------ properties

  /** Without a successful full commit, no savepoint is written and the
      commit reports an error. */
  lemma FullCommitGuardsSavepoint(codec: JsonCodec, c: CacheView, st: DbState, faults: Faults, batch: seq<Update>, h: Height)
    requires WellFormedDocs(st.docs) && faults.fullCommit != CommitOk
    ensures var e := ApplyUpdatesSpec(codec, c, st, faults, batch, h);
            e.err.Some? && Call.SaveDoc(SavepointDocId) !in e.calls
  {
    var ds := SentDocuments(codec, c, st.docs, faults.retrieveFails, batch);
    var e := CommitDocuments(st, faults, ds, h);
    assert ApplyUpdatesSpec(codec, c, st, faults, batch, h) == e.(calls := LoadCalls(c, batch) + e.calls);
    CommitDocumentsCases(st, faults, ds, h);
    CommitDocumentsSaves(st, faults, ds, h);
    LoadCallsOnlyRead(c, batch, e.calls, Call.SaveDoc(SavepointDocId));
  }

  /** The savepoint is written only after every document of the batch was
      accepted; a refused document makes the commit fail with its identifier. */
  lemma SavepointOnlyAfterAllWritten(codec: JsonCodec, c: CacheView, st: DbState, faults: Faults, batch: seq<Update>, h: Height)
    requires WellFormedDocs(st.docs)
    ensures var ds := SentDocuments(codec, c, st.docs, faults.retrieveFails, batch);
            var e := ApplyUpdatesSpec(codec, c, st, faults, batch, h);
            && (Call.SaveDoc(SavepointDocId) in e.calls ==> ds == [] || (!faults.bulkFails && AllOk(BulkApply(st, ds).1)))
            && (ds != [] && !faults.bulkFails && !AllOk(BulkApply(st, ds).1) ==>
                  e.err == Some(NotSaved(FirstRefused(BulkApply(st, ds).1))) && Call.SaveDoc(SavepointDocId) !in e.calls)
  {
    var ds := SentDocuments(codec, c, st.docs, faults.retrieveFails, batch);
    var e := CommitDocuments(st, faults, ds, h);
    assert ApplyUpdatesSpec(codec, c, st, faults, batch, h) == e.(calls := LoadCalls(c, batch) + e.calls);
    CommitDocumentsCases(st, faults, ds, h);
    CommitDocumentsSaves(st, faults, ds, h);
    LoadCallsOnlyRead(c, batch, e.calls, Call.SaveDoc(SavepointDocId));
  }

  /** A commit that reports no error leaves the given height in the
      savepoint document. */
  lemma CommitRecordsHeight(codec: JsonCodec, c: CacheView, st: DbState, faults: Faults, batch: seq<Update>, h: Height)
    requires WellFormedDocs(st.docs)
    ensures var e := ApplyUpdatesSpec(codec, c, st, faults, batch, h);
            e.err.None? ==> SavepointOf(e.state.docs) == Some(h)
  {
    var ds := SentDocuments(codec, c, st.docs, faults.retrieveFails, batch);
    var e := CommitDocuments(st, faults, ds, h);
    assert ApplyUpdatesSpec(codec, c, st, faults, batch, h) == e.(calls := LoadCalls(c, batch) + e.calls);
    CommitDocumentsHeight(st, faults, ds, h);
  }

  /** Distinct composite keys over separator-free namespaces give distinct
      document identifiers, when namespaces and keys are well-formed UTF-8
      (see InvalidKeysShareDocument for what happens otherwise). */
  lemma DocumentIdsDistinct(codec: JsonCodec, revisions: map<CompositeKey, Bytes>, batch: seq<Update>)
    requires DistinctKeys(batch) && SeparatorFreeBatch(batch) && Utf8Batch(batch)
    ensures DistinctIds(BatchDocuments(codec, revisions, batch))
  {
    var ds := BatchDocuments(codec, revisions, batch);
    BatchDocumentsShape(codec, revisions, batch);
    forall i, j | 0 <= i < j < |ds|
      ensures ds[i].fields.id != ds[j].fields.id
    {
      if ds[i].fields.id == ds[j].fields.id {
        IdOfInjective(KeyOf(batch[i]), KeyOf(batch[j]));
      }
    }
  }

  /** Why DocumentIdsDistinct needs well-formed keys: two distinct one-byte
      keys whose byte starts no character (FF and FE, say) are sent under
      one identifier, namespace 00 EF BF BD, which is neither key's identifier. */
  lemma InvalidKeysShareDocument(ns: Bytes, b1: byte, b2: byte)
    requires ValidUtf8(ns) && b1 != b2 && FirstCharLength([b1]) == 0 && FirstCharLength([b2]) == 0
    ensures var k1 := CompositeKey(ns, [b1]);
            var k2 := CompositeKey(ns, [b2]);
            && k1 != k2
            && JsonString(IdOf(k1)) == JsonString(IdOf(k2)) == ns + [CompositeKeySep] + Replacement
            && JsonString(IdOf(k1)) != IdOf(k1)
  {
    var prefix := ns + [CompositeKeySep];
    AsciiValid(CompositeKeySep);
    ValidUtf8Append(ns, [CompositeKeySep]);
    JsonStringValidPrefix(prefix, [b1]);
    JsonStringValidPrefix(prefix, [b2]);
    assert JsonString([b1]) == Replacement + JsonString([]);
    assert JsonString([b2]) == Replacement + JsonString([]);
    assert CompositeKey(ns, [b1]).key[0] != CompositeKey(ns, [b2]).key[0];
  }

  /** What a reader sees for an update once it is committed: nothing for a
      delete; the bytes of a binary value, or the re-marshalled text of a JSON
      value, with the update's height. */
  function Expected(codec: JsonCodec, u: Update): Option<VersionedValue>
  {
    match u.value
    case None => None
    case Some(v) => Some(VersionedValue(Some(if codec.isJson(v) then codec.remarshal(v) else v), Some(u.version)))
  }

  /** A landed document reads back as its update intended, under the
      identifier the database received. */
  lemma LandedReadsBack(codec: JsonCodec, docs: map<Bytes, StoredDoc>, revisions: map<CompositeKey, Bytes>, u: Update)
    requires WellFormedDocs(docs) && Landed(docs, DocumentFor(codec, revisions, u))
    ensures StoredValue(codec, docs, JsonString(IdOf(KeyOf(u)))) == Expected(codec, u)
  {
    var d := DocumentFor(codec, revisions, u);
    var id := JsonString(IdOf(KeyOf(u)));
    BuildDocumentShape(codec, u.namespace, u.key, RevisionOf(revisions, KeyOf(u)), u.value, u.version);
    if u.value.Some? {
      var rev := RevisionOf(revisions, KeyOf(u));
      if codec.isJson(u.value.value) {
        JsonRoundTrip(codec, u.namespace, u.key, rev, u.value.value, u.version, Some(docs[id].rev));
      } else {
        BinaryRoundTrip(codec, u.namespace, u.key, rev, u.value.value, u.version, Some(docs[id].rev));
      }
    }
  }

  /** A commit of distinct documents that reports no error has landed every
      one of them, and keeps the database well formed. */
  lemma CommitDocumentsLanded(st: DbState, faults: Faults, ds: seq<CouchDoc>, h: Height)
    requires WellFormedDocs(st.docs) && DistinctIds(ds)
    requires forall i :: 0 <= i < |ds| ==> WellFormedWrite(ds[i])
    ensures var e := CommitDocuments(st, faults, ds, h);
            e.err.None? ==> WellFormedDocs(e.state.docs) && forall i :: 0 <= i < |ds| ==> Landed(e.state.docs, ds[i])
  {
    var e := CommitDocuments(st, faults, ds, h);
    CommitDocumentsCases(st, faults, ds, h);
    if e.err.None? && ds != [] {
      var written := BulkApply(st, ds);
      BulkApplyLanded(st, ds);
      BulkApplyWellFormed(st, ds);
      SavepointHolds(written.0, faults, h);
      SavepointIdNotComposite();
      forall i | 0 <= i < |ds|
        ensures Landed(e.state.docs, ds[i])
      {
        assert ds[i].fields.id != SavepointDocId;
        assert Landed(written.0.docs, ds[i]);
      }
    }
  }

  /** Write then read: after a commit that reports no error, every key of the
      batch reads back as its update intended. */
  lemma CommitMakesBatchReadable(codec: JsonCodec, c: CacheView, st: DbState, faults: Faults, batch: seq<Update>, h: Height)
    requires WellFormedDocs(st.docs) && DistinctKeys(batch) && SeparatorFreeBatch(batch) && Utf8Batch(batch)
    ensures var e := ApplyUpdatesSpec(codec, c, st, faults, batch, h);
            e.err.None? ==> forall i :: 0 <= i < |batch| ==>
              WellFormedDocs(e.state.docs) && StoredValue(codec, e.state.docs, IdOf(KeyOf(batch[i]))) == Expected(codec, batch[i])
  {
    var revisions := CacheAfterLoad(c, st.docs, faults.retrieveFails, batch).revisions;
    var ds := BatchDocuments(codec, revisions, batch);
    var e := CommitDocuments(st, faults, ds, h);
    assert ApplyUpdatesSpec(codec, c, st, faults, batch, h) == e.(calls := LoadCalls(c, batch) + e.calls);
    DocumentIdsDistinct(codec, revisions, batch);
    BatchDocumentsShape(codec, revisions, batch);
    CommitDocumentsLanded(st, faults, ds, h);
    if e.err.None? {
      forall i | 0 <= i < |batch|
        ensures StoredValue(codec, e.state.docs, IdOf(KeyOf(batch[i]))) == Expected(codec, batch[i])
      {
        LandedReadsBack(codec, e.state.docs, revisions, batch[i]);
        assert ds[i].fields.id == IdOf(KeyOf(batch[i]));
      }
    }
  }

  /** After the revision load, the revision sent for a batch key whose
      revision was not cached is the one the database holds (none for a new
      key), so the database accepts it. */
  lemma LoadedRevisionIsCurrent(codec: JsonCodec, c: CacheView, docs: map<Bytes, StoredDoc>, batch: seq<Update>, i: nat)
    requires WellFormedDocs(docs) && SeparatorFreeBatch(batch) && i < |batch|
    requires KeyOf(batch[i]) !in c.revisions && Utf8Update(batch[i])
    ensures var d := DocumentFor(codec, CacheAfterLoad(c, docs, false, batch).revisions, batch[i]);
            d.fields.rev == CurrentRev(docs, d.fields.id)
  {
    var k := KeyOf(batch[i]);
    var missing := MissingKeys(c.revisions, batch);
    assert k in missing;
    forall j | 0 <= j < |missing|
      ensures SeparatorFree(missing[j].namespace)
    {
      assert missing[j] in missing;
    }
    LoadAt(c, docs, false, missing, false, k);
    var u := batch[i];
    BuildDocumentShape(codec, u.namespace, u.key, RevisionOf(CacheAfterLoad(c, docs, false, batch).revisions, k), u.value, u.version);
    SavepointIdNotComposite();
    if IdOf(k) in docs {
      assert WellFormedDoc(IdOf(k), docs[IdOf(k)]);
    }
  }

  /** With no failures, a cache that holds no revision for the batch keys (as
      after ClearCachedVersions), and a batch as the Go maps hold it, the
      commit succeeds: every document names the revision the database holds. */
  lemma FaultFreeCommitSucceeds(codec: JsonCodec, c: CacheView, st: DbState, faults: Faults, batch: seq<Update>, h: Height)
    requires WellFormedDocs(st.docs) && DistinctKeys(batch) && SeparatorFreeBatch(batch) && Utf8Batch(batch)
    requires forall i :: 0 <= i < |batch| ==> KeyOf(batch[i]) !in c.revisions
    requires faults == Faults(false, false, false, CommitOk, false, false)
    ensures ApplyUpdatesSpec(codec, c, st, faults, batch, h).err.None?
  {
    var revisions := CacheAfterLoad(c, st.docs, false, batch).revisions;
    var ds := BatchDocuments(codec, revisions, batch);
    DocumentIdsDistinct(codec, revisions, batch);
    forall i | 0 <= i < |ds|
      ensures ds[i].fields.rev == CurrentRev(st.docs, ds[i].fields.id)
    {
      LoadedRevisionIsCurrent(codec, c, st.docs, batch, i);
    }
    BulkAllAccepted(st, ds);
  }
}
