/** VersionedDB: the CouchDB-backed state database of one channel. Reads
    consult the per-call cache before the database; ApplyUpdates writes a
    batch of updates and then a savepoint; range reads and rich queries hand
    back scanners. */
module StateCouchDB {
  import opened Wrappers
  import opened ByteStrings
  import opened CompositeKeys
  import opened Versions
  import opened Documents
  import opened Errors
  import opened Store
  import opened VersionCache
  import opened Scanners
  import opened CommitSpec
  import opened Utf8

  /** ValidateKey: a key is accepted exactly when it is the UTF-8 encoding of
      some sequence of scalar values. */
  function ValidateKey(key: Bytes): (r: Option<Error>)
    ensures r.None? <==> exists cps :: AllScalars(cps) && EncodeAll(cps) == key
    ensures r.Some? ==> r.value == InvalidKey(key)
  {
    ValidIffEncoding(key);
    if ValidUtf8(key) then None else Some(InvalidKey(key))
  }

  /** A key ValidateKey accepts, in a namespace it would accept, reaches the
      database under its own composite key: json.Marshal leaves it alone. */
  lemma ValidatedKeyWrittenAsBuilt(codec: JsonCodec, ns: Bytes, key: Bytes, revision: Bytes,
                                   value: Option<Bytes>, version: Height)
    requires ValidateKey(ns).None? && ValidateKey(key).None?
    ensures BuildDocument(codec, ns, key, revision, value, version).fields.id == ConstructCompositeKey(ns, key)
  {
    BuildDocumentShape(codec, ns, key, revision, value, version);
  }

  /** The services the handle uses that live outside this file: the JSON
      library, the configured query limit, and ApplyQueryWrapper (None when
      it rejects the query). */
  datatype Environment = Environment(
    codec: JsonCodec,
    queryLimit: nat,
    queryWrapper: (Bytes, Bytes, nat) -> Option<Bytes>)

  class VersionedDB {
    const db: DocStore
    const dbName: Bytes
    const env: Environment
    var committedData: CommittedVersions

    ghost predicate Valid()
      reads this, db
    {
      db.Valid()
    }

    /** newVersionedDB, given the database object CreateCouchDatabase returned. */
    constructor (db: DocStore, dbName: Bytes, env: Environment)
      ensures this.db == db && this.dbName == dbName && this.env == env
      ensures fresh(committedData) && committedData.View() == EmptyCache
    {
      this.db := db;
      this.dbName := dbName;
      this.env := env;
      committedData := new CommittedVersions();
    }

    /** ClearCachedVersions: three new empty maps. */
    method ClearCachedVersions()
      modifies this`committedData
      ensures fresh(committedData) && committedData.View() == EmptyCache
    {
      committedData := new CommittedVersions();
    }

    /** LoadCommittedVersions: negative entries for every requested key, then
      the versions and revisions the bulk read reports. */
    method LoadCommittedVersions(keys: seq<CompositeKey>)
      requires Valid()
      modifies committedData, db`log
      ensures db.log == old(db.log) + [Call.BatchRetrieve(IdsOf(keys), false)]
      ensures committedData.View() == Load(old(committedData.View()), keys, RowsFor(db.docs, db.faults.retrieveFails, keys), false)
    {
      var keymap := committedData.SeedKeys(keys);
      var res := db.BatchRetrieve(keymap, false);
      var rows := if res.Success? then res.value else [];
      assert rows == RowsFor(db.docs, db.faults.retrieveFails, keys);
      committedData.RecordRows(rows, false);
    }

    /** LoadCommittedValues: as LoadCommittedVersions, and a value entry for
      every reported key; the value stored is nil, as the document body is
      never decoded into it. */
    method LoadCommittedValues(keys: seq<CompositeKey>)
      requires Valid()
      modifies committedData, db`log
      ensures db.log == old(db.log) + [Call.BatchRetrieve(IdsOf(keys), true)]
      ensures committedData.View() == Load(old(committedData.View()), keys, RowsFor(db.docs, db.faults.retrieveFails, keys), true)
    {
      var keymap := committedData.SeedKeys(keys);
      var res := db.BatchRetrieve(keymap, true);
      var rows := if res.Success? then res.value else [];
      assert rows == RowsFor(db.docs, db.faults.retrieveFails, keys);
      committedData.RecordRows(rows, true);
    }

    /** GetState: from the cache when both its value and version maps hold
      the key, otherwise from the database (nothing when it holds no document). */
    method GetState(ns: Bytes, key: Bytes) returns (r: Result<Option<VersionedValue>, Error>)
      requires Valid()
      modifies db`log
      ensures var k := CompositeKey(ns, key);
              CacheHit(committedData.View(), k) ==>
                db.log == old(db.log) && r == Success(StateView(env.codec, committedData.View(), db.docs, k))
      ensures var k := CompositeKey(ns, key);
              !CacheHit(committedData.View(), k) ==>
                && db.log == old(db.log) + [Call.ReadDoc(IdOf(k))]
                && r == if db.faults.readFails then Failure(StoreError)
                        else Success(StateView(env.codec, committedData.View(), db.docs, k))
    {
      var k := CompositeKey(ns, key);
      if k in committedData.committedValues && k in committedData.committedVersions {
        return Success(Some(VersionedValue(committedData.committedValues[k], committedData.committedVersions[k])));
      }
      SavepointIdNotComposite();
      var compositeKey := ConstructCompositeKey(ns, key);
      var res := db.ReadDoc(compositeKey);
      match res {
        case Failure(e) =>
          r := Failure(e);
        case Success(None) =>
          r := Success(None);
        case Success(Some(doc)) =>
          match doc.body {
            case StateBody(fields, attachments) =>
              var value, version := RemoveDataWrapper(env.codec, fields, attachments);
              r := Success(Some(VersionedValue(Some(value), Some(version))));
            case SavepointBody(_, _, _) =>
              assert false;
          }
      }
    }

    /** GetVersion as written: the cached version when the version map holds
      the key. After a cache miss it reads the document and answers absent
      when the read succeeds, whatever the database holds; a failed read would
      be dereferenced as a nil document, so the caller must not let that happen. */
    method GetVersion(ns: Bytes, key: Bytes) returns (r: Result<Option<Height>, Error>)
      requires Valid()
      requires CompositeKey(ns, key) !in committedData.committedVersions ==> !db.faults.readFails
      modifies db`log
      ensures r == Success(VersionAsWritten(committedData.View(), CompositeKey(ns, key)))
      ensures var k := CompositeKey(ns, key);
              db.log == if k in committedData.committedVersions then old(db.log) else old(db.log) + [Call.ReadDoc(IdOf(k))]
    {
      var k := CompositeKey(ns, key);
      if k in committedData.committedVersions {
        return Success(committedData.committedVersions[k]);
      }
      var res := db.ReadDoc(ConstructCompositeKey(ns, key));
      r := Success(None);
    }

    /** GetVersion with the read error returned and the stored document's
      version read back: it reports the version GetState would report. */
    method GetVersionCorrected(ns: Bytes, key: Bytes) returns (r: Result<Option<Height>, Error>)
      requires Valid()
      modifies db`log
      ensures var k := CompositeKey(ns, key);
              k in committedData.committedVersions ==>
                r == Success(committedData.committedVersions[k]) && db.log == old(db.log)
      ensures var k := CompositeKey(ns, key);
              k !in committedData.committedVersions ==>
                && db.log == old(db.log) + [Call.ReadDoc(IdOf(k))]
                && r == if db.faults.readFails then Failure(StoreError) else Success(StoredVersion(db.docs, IdOf(k)))
    {
      var k := CompositeKey(ns, key);
      if k in committedData.committedVersions {
        return Success(committedData.committedVersions[k]);
      }
      SavepointIdNotComposite();
      var res := db.ReadDoc(ConstructCompositeKey(ns, key));
      match res {
        case Failure(e) =>
          r := Failure(e);
        case Success(None) =>
          r := Success(None);
        case Success(Some(doc)) =>
          match doc.body {
            case StateBody(fields, _) =>
              r := Success(Some(CreateVersionFromString(fields.version)));
            case SavepointBody(_, _, _) =>
              assert false;
          }
      }
    }

    /** GetStateMultipleKeys: load the keys' versions and values, read each
      key with GetState in order, and clear the cache on the way out. */
    method GetStateMultipleKeys(ns: Bytes, keys: seq<Bytes>) returns (r: Result<seq<Option<VersionedValue>>, Error>)
      requires Valid()
      modifies this`committedData, committedData, db`log
      ensures committedData.View() == EmptyCache
      ensures var cks := KeysIn(ns, keys);
              var c := Load(old(committedData.View()), cks, RowsFor(db.docs, db.faults.retrieveFails, cks), true);
              r == MultiKeySpec(env.codec, c, db.docs, db.faults.readFails, ns, keys)
    {
      var cks: seq<CompositeKey> := [];
      for i := 0 to |keys|
        invariant cks == KeysIn(ns, keys[..i])
        invariant committedData == old(committedData) && committedData.View() == old(committedData.View())
        invariant db.log == old(db.log)
      {
        cks := cks + [CompositeKey(ns, keys[i])];
      }
      assert keys[..|keys|] == keys;
      LoadCommittedValues(cks);
      r := GetEach(ns, keys);
      ClearCachedVersions();
    }

    /** The loop of GetStateMultipleKeys: GetState for every key, in order,
      stopping at the first failure. */
    method GetEach(ns: Bytes, keys: seq<Bytes>) returns (r: Result<seq<Option<VersionedValue>>, Error>)
      requires Valid()
      modifies db`log
      ensures r == MultiKeySpec(env.codec, committedData.View(), db.docs, db.faults.readFails, ns, keys)
    {
      var vals: seq<Option<VersionedValue>> := [];
      for i := 0 to |keys|
        invariant |vals| == i
        invariant forall j :: 0 <= j < i ==> vals[j] == StateView(env.codec, committedData.View(), db.docs, CompositeKey(ns, keys[j]))
        invariant db.faults.readFails ==> AllCached(committedData.View(), ns, keys[..i])
      {
        var val := GetState(ns, keys[i]);
        if val.Failure? {
          assert !AllCached(committedData.View(), ns, keys);
          return Failure(val.error);
        }
        assert keys[..i + 1][..i] == keys[..i];
        vals := vals + [val.value];
      }
      assert keys[..|keys|] == keys;
      assert vals == MultiKeyView(env.codec, committedData.View(), db.docs, ns, keys);
      r := Success(vals);
    }

    /** GetStateRangeScanIterator: the documents from the start key's composite
      key up to (excluding) the end bound, at most the query limit of them. */
    method GetStateRangeScanIterator(ns: Bytes, startKey: Bytes, endKey: Bytes) returns (r: Result<KVScanner, Error>)
      requires Valid()
      modifies db`log
      ensures var lo := ConstructCompositeKey(ns, startKey);
              var hi := RangeEndKey(ns, endKey);
              && db.log == old(db.log) + [Call.ReadDocRange(lo, hi, env.queryLimit)]
              && (r.Failure? <==> db.faults.readFails)
              && (r.Success? ==>
                    && fresh(r.value) && r.value.Valid() && r.value.cursor == -1 && r.value.returned == []
                    && r.value.namespace == ns && r.value.codec == env.codec
                    && RangeAnswer(db.docs, lo, hi, env.queryLimit, r.value.results))
    {
      var compositeStartKey := ConstructCompositeKey(ns, startKey);
      var compositeEndKey := RangeEndKey(ns, endKey);
      var res := db.ReadDocRange(compositeStartKey, compositeEndKey, env.queryLimit);
      if res.Failure? {
        return Failure(res.error);
      }
      var scanner := new KVScanner(ns, res.value, env.codec);
      r := Success(scanner);
    }

    /** ExecuteQuery: wrap the query, run it, hand back a scanner over the answer. */
    method ExecuteQuery(ns: Bytes, query: Bytes) returns (r: Result<QueryScanner, Error>)
      requires Valid()
      modifies db`log
      ensures var q := env.queryWrapper(ns, query, env.queryLimit);
              && (q.None? ==> r == Failure(QueryRejected) && db.log == old(db.log))
              && (q.Some? ==>
                    && db.log == old(db.log) + [Call.QueryDocuments(q.value)]
                    && (r.Failure? <==> db.faults.readFails)
                    && (r.Success? ==>
                          && fresh(r.value) && r.value.Valid() && r.value.cursor == -1 && r.value.returned == []
                          && r.value.codec == env.codec
                          && r.value.results == if q.value in db.queryAnswers then db.queryAnswers[q.value] else []))
    {
      var queryString := env.queryWrapper(ns, query, env.queryLimit);
      if queryString.None? {
        return Failure(QueryRejected);
      }
      var res := db.QueryDocuments(queryString.value);
      if res.Failure? {
        return Failure(res.error);
      }
      var scanner := new QueryScanner(res.value, env.codec);
      r := Success(scanner);
    }

    /** recordSavepoint */
    method RecordSavepoint(height: Height) returns (err: Option<Error>)
      requires Valid()
      modifies db`docs, db`updateSeq, db`log
      ensures Valid()
      ensures var e := SavepointSpec(old(db.State()), db.faults, height);
              err == e.err && db.State() == e.state && db.log == old(db.log) + e.calls
    {
      var full := db.EnsureFullCommit();
      if full != Success(true) {
        return Some(FullCommitFailed);
      }
      var info := db.GetDatabaseInfo();
      if info.Failure? {
        return Some(info.error);
      }
      var body := SavepointBody(height.blockNum, height.txNum, info.value);
      var saved := db.SaveDoc(SavepointDocId, body);
      if saved.Failure? {
        return Some(saved.error);
      }
      err := None;
    }

    /** GetLatestSavePoint: the height in the savepoint document, or nothing
      when there is none yet. */
    method GetLatestSavePoint() returns (r: Result<Option<Height>, Error>)
      modifies db`log
      ensures db.log == old(db.log) + [Call.ReadDoc(SavepointDocId)]
      ensures r == if db.faults.readFails then Failure(StoreError) else Success(SavepointOf(db.docs))
    {
      var res := db.ReadDoc(SavepointDocId);
      match res {
        case Failure(e) =>
          r := Failure(e);
        case Success(None) =>
          r := Success(None);
        case Success(Some(doc)) =>
          match doc.body {
            case SavepointBody(blockNum, txNum, _) =>
              r := Success(Some(Height(blockNum, txNum)));
            case StateBody(_, _) =>
              r := Success(Some(Height(0, 0)));
          }
      }
    }

    /** ApplyUpdates: load the revisions the cache lacks, send one document per
      update, stop at the first refused one, record the savepoint; the cache
      is cleared on every way out. */
    method ApplyUpdates(batch: seq<Update>, height: Height) returns (err: Option<Error>)
      requires Valid()
      modifies this`committedData, committedData, db`docs, db`updateSeq, db`log
      ensures Valid() && committedData.View() == EmptyCache
      ensures var e := ApplyUpdatesSpec(env.codec, old(committedData.View()), old(db.State()), db.faults, batch, height);
              err == e.err && db.State() == e.state && db.log == old(db.log) + e.calls
    {
      ghost var c0 := committedData.View();
      ghost var st0 := db.State();
      ghost var log0 := db.log;
      ghost var loadCalls := LoadCalls(c0, batch);
      ApplyUpdatesSteps(env.codec, c0, st0, db.faults, batch, height);
      LoadMissingRevisions(batch);
      ghost var log1 := db.log;
      assert log1 == log0 + loadCalls;
      var batchUpdateDocs := BuildDocuments(env.codec, committedData.revisionNumbers, batch);
      assert batchUpdateDocs == SentDocuments(env.codec, c0, st0.docs, db.faults.retrieveFails, batch);
      ghost var e := CommitDocuments(st0, db.faults, batchUpdateDocs, height);
      err := CommitBatch(batchUpdateDocs, height);
      assert db.log == log1 + e.calls;
      CallsAssociate(log0, loadCalls, e.calls);
      ClearCachedVersions();
    }

    /** The first step of ApplyUpdates: load the revisions of the batch keys
      the cache lacks, when there are any. */
    method LoadMissingRevisions(batch: seq<Update>)
      requires Valid()
      modifies committedData, db`log
      ensures committedData.View() == CacheAfterLoad(old(committedData.View()), db.docs, db.faults.retrieveFails, batch)
      ensures db.log == old(db.log) + LoadCalls(old(committedData.View()), batch)
    {
      var missingKeys := MissingRevisions(batch);
      if |missingKeys| > 0 {
        LoadCommittedVersions(missingKeys);
      }
    }

    /** The first loop of ApplyUpdates: the batch keys without a cached revision. */
    method MissingRevisions(batch: seq<Update>) returns (missingKeys: seq<CompositeKey>)
      ensures missingKeys == MissingKeys(committedData.revisionNumbers, batch)
    {
      missingKeys := [];
      for i := 0 to |batch|
        invariant missingKeys == MissingKeys(committedData.revisionNumbers, batch[..i])
      {
        var k := CompositeKey(batch[i].namespace, batch[i].key);
        assert batch[..i + 1][..i] == batch[..i];
        if k !in committedData.revisionNumbers {
          missingKeys := missingKeys + [k];
        }
      }
      assert batch[..|batch|] == batch;
    }

    /** The second loop of ApplyUpdates: one document per update, with the
      cached revision. */
    static method BuildDocuments(codec: JsonCodec, revisions: map<CompositeKey, Bytes>, batch: seq<Update>)
      returns (batchUpdateDocs: seq<CouchDoc>)
      ensures batchUpdateDocs == BatchDocuments(codec, revisions, batch)
    {
      batchUpdateDocs := [];
      for i := 0 to |batch|
        invariant batchUpdateDocs == BatchDocuments(codec, revisions, batch[..i])
      {
        var u := batch[i];
        var revision := RevisionOf(revisions, KeyOf(u));
        var doc := BuildDocument(codec, u.namespace, u.key, revision, u.value, u.version);
        BatchDocumentsStep(codec, revisions, batch, i);
        batchUpdateDocs := batchUpdateDocs + [doc];
      }
      assert batch[..|batch|] == batch;
    }

    /** The rest of ApplyUpdates: the bulk write, the check of every
      response, and the savepoint. */
    method CommitBatch(batchUpdateDocs: seq<CouchDoc>, height: Height) returns (err: Option<Error>)
      requires Valid() && forall i :: 0 <= i < |batchUpdateDocs| ==> WellFormedWrite(batchUpdateDocs[i])
      modifies db`docs, db`updateSeq, db`log
      ensures Valid()
      ensures var e := CommitDocuments(old(db.State()), db.faults, batchUpdateDocs, height);
              err == e.err && db.State() == e.state && db.log == old(db.log) + e.calls
    {
      CommitDocumentsCases(db.State(), db.faults, batchUpdateDocs, height);
      if |batchUpdateDocs| > 0 {
        var resp := db.BatchUpdateDocuments(batchUpdateDocs);
        if resp.Failure? {
          return Some(resp.error);
        }
        err := CheckResponses(resp.value);
        if err.Some? {
          return;
        }
      }
      err := RecordSavepoint(height);
    }

    /** The loop over the bulk write's responses: the first refused document
      is reported by its identifier, CouchDB's error and its reason. */
    static method CheckResponses(responses: seq<BulkResponse>) returns (err: Option<Error>)
      ensures err.None? <==> AllOk(responses)
      ensures err.Some? ==> !AllOk(responses) && err == Some(NotSaved(FirstRefused(responses)))
      ensures err.Some? ==> exists i :: 0 <= i < |responses| && !responses[i].ok && AllOk(responses[..i]) &&
                              err.value == DocumentNotSaved(responses[i].id, responses[i].error, responses[i].reason)
    {
      for i := 0 to |responses|
        invariant AllOk(responses[..i])
      {
        if !responses[i].ok {
          FirstRefusedAt(responses, i);
          return Some(NotSaved(responses[i]));
        }
        assert responses[..i + 1] == responses[..i] + [responses[i]];
      }
      assert responses[..|responses|] == responses;
      err := None;
    }
  }

  /** Every record a range scan of `ns` yields is a state document of `ns`
      whose key is not below startKey and, unless endKey is empty, below
      endKey; kvScanner and queryScanner read it alike. */
  lemma RangeScanSound(codec: JsonCodec, docs: map<Bytes, StoredDoc>, ns: Bytes, startKey: Bytes, endKey: Bytes,
                       limit: nat, rs: seq<QueryResult>, i: nat)
    requires WellFormedDocs(docs) && SeparatorFree(ns) && i < |rs|
    requires RangeAnswer(docs, ConstructCompositeKey(ns, startKey), RangeEndKey(ns, endKey), limit, rs)
    ensures WellFormedResult(rs[i])
    ensures var kv := KVRecord(codec, ns, rs[i]);
            && kv == QueryRecord(codec, rs[i])
            && IdOf(kv.key) == rs[i].id
            && kv.key.namespace == ns
            && !Less(kv.key.key, startKey)
            && (endKey == [] || Less(kv.key.key, endKey))
  {
    var r := rs[i];
    assert InRangeState(docs, ConstructCompositeKey(ns, startKey), RangeEndKey(ns, endKey), r.id);
    assert WellFormedDoc(r.id, docs[r.id]);
    ScanResultInNamespace(ns, startKey, endKey, r.id);
    ScannersAgree(codec, ns, r);
    var key2 := SplitCompositeKey(r.id).1;
    ScanCoversNamespace(ns, startKey, endKey, ns, key2);
  }

  /** A range scan of `ns` misses a state document of `ns` whose key lies in
      the range only when it stopped at the query limit below it. */
  lemma RangeScanComplete(docs: map<Bytes, StoredDoc>, ns: Bytes, startKey: Bytes, endKey: Bytes,
                          limit: nat, rs: seq<QueryResult>, key: Bytes)
    requires SeparatorFree(ns)
    requires RangeAnswer(docs, ConstructCompositeKey(ns, startKey), RangeEndKey(ns, endKey), limit, rs)
    requires var id := ConstructCompositeKey(ns, key); id in docs && docs[id].body.StateBody?
    requires !Less(key, startKey) && (endKey == [] || Less(key, endKey))
    ensures var id := ConstructCompositeKey(ns, key);
            id in Ids(rs) || (|rs| == limit && forall j :: 0 <= j < |rs| ==> Less(rs[j].id, id))
  {
    ScanCoversNamespace(ns, startKey, endKey, ns, key);
    assert InRangeState(docs, ConstructCompositeKey(ns, startKey), RangeEndKey(ns, endKey), ConstructCompositeKey(ns, key));
  }
}
