/** An in-memory stand-in for the CouchDB database behind one state database
    handle. It holds documents by identifier with their revisions, accepts a
    write only when it names the document's current revision (CouchDB's
    per-document optimistic concurrency), and records every call made to it.
    Failures the real client can report are chosen by the environment through
    `faults`; the answers of the Mango query engine through `queryAnswers`. */
module Store {
  import opened Wrappers
  import opened ByteStrings
  import opened CompositeKeys
  import opened Versions
  import opened Documents
  import opened Errors

  /** savepointDocID, the ASCII bytes of "statedb_savepoint". */
  const SavepointDocId: Bytes := [0x73, 0x74, 0x61, 0x74, 0x65, 0x64, 0x62, 0x5F, 0x73, 0x61, 0x76, 0x65, 0x70, 0x6F, 0x69, 0x6E, 0x74]

  /** What the database holds under one identifier: a state document as
      addCouchDBFieldsToValue shaped it, or the savepoint document. */
  datatype Body =
    | StateBody(fields: DocFields, attachments: Option<seq<Attachment>>)
    | SavepointBody(blockNum: uint64, txNum: uint64, updateSeq: Bytes)

  datatype StoredDoc = StoredDoc(rev: Bytes, body: Body)

  /** One row of BatchRetrieve: identifier, revision and `version` field, the
      last two empty for a document the database does not hold. */
  datatype IdVersion = IdVersion(id: Bytes, rev: Bytes, version: Bytes)

  /** One per-document answer of BatchUpdateDocuments: the identifier, the
      `ok` flag and, for a refused document, CouchDB's error and reason. */
  datatype BulkResponse = BulkResponse(id: Bytes, ok: bool, error: string, reason: string)

  /** What CouchDB answers for a document whose `_rev` is not the current one. */
  const ConflictError: string := "conflict"
  const ConflictReason: string := "Document update conflict."

  /** couchdb.QueryResult: one record of a range read or a query. */
  datatype QueryResult = QueryResult(id: Bytes, value: DocFields, attachments: Option<seq<Attachment>>)

  datatype CommitReply = CommitOk | CommitNotOk | CommitError

  /** Which calls fail: chosen by the environment, not derived from the contents. */
  datatype Faults = Faults(
    readFails: bool,
    retrieveFails: bool,
    bulkFails: bool,
    fullCommit: CommitReply,
    infoFails: bool,
    saveFails: bool)

  /** The calls the adapter makes, in the order made. */
  datatype Call =
    | ReadDoc(id: Bytes)
    | ReadDocRange(startKey: Bytes, endKey: Bytes, limit: nat)
    | QueryDocuments(query: Bytes)
    | BatchRetrieve(ids: seq<Bytes>, includeDocs: bool)
    | BatchUpdateDocuments(docs: seq<CouchDoc>)
    | EnsureFullCommit
    | GetDatabaseInfo
    | SaveDoc(id: Bytes)

  /** The database contents and its update sequence (the number of accepted writes). */
  datatype DbState = DbState(docs: map<Bytes, StoredDoc>, updateSeq: nat)

  /** State documents live under composite keys and carry a parsable version;
      the savepoint document lives under its reserved identifier. */
  predicate WellFormedBody(id: Bytes, b: Body)
  {
    match b
    case StateBody(f, _) => CompositeKeySep in id && Colon in f.version
    case SavepointBody(_, _, _) => id == SavepointDocId
  }

  predicate WellFormedDoc(id: Bytes, d: StoredDoc)
  {
    d.rev != [] && WellFormedBody(id, d.body)
  }

  predicate WellFormedDocs(docs: map<Bytes, StoredDoc>)
  {
    forall id | id in docs :: WellFormedDoc(id, docs[id])
  }

  /** A document this adapter writes in a bulk update. */
  predicate WellFormedWrite(d: CouchDoc)
  {
    CompositeKeySep in d.fields.id && Colon in d.fields.version
  }

  predicate WellFormedResult(r: QueryResult)
  {
    CompositeKeySep in r.id && Colon in r.value.version
  }

  predicate WellFormedResults(rs: seq<QueryResult>)
  {
    forall i :: 0 <= i < |rs| ==> WellFormedResult(rs[i])
  }

  lemma SavepointIdNotComposite()
    ensures CompositeKeySep !in SavepointDocId
  {
  }

  function VersionField(b: Body): Bytes
  {
    if b.StateBody? then b.fields.version else []
  }

  function RowOf(docs: map<Bytes, StoredDoc>, id: Bytes): IdVersion
  {
    if id in docs then IdVersion(id, docs[id].rev, VersionField(docs[id].body)) else IdVersion(id, [], [])
  }

  /** A row that reports a version names a composite key and a parsable version. */
  predicate RowsWellFormed(rows: seq<IdVersion>)
  {
    forall i :: 0 <= i < |rows| && rows[i].version != [] ==>
      CompositeKeySep in rows[i].id && Colon in rows[i].version
  }

  /** The rows BatchRetrieve answers for `ids`, one per id, in order. */
  function RetrieveRows(docs: map<Bytes, StoredDoc>, ids: seq<Bytes>): (rows: seq<IdVersion>)
    ensures |rows| == |ids|
    ensures forall i :: 0 <= i < |ids| ==> rows[i] == RowOf(docs, ids[i])
  {
    seq(|ids|, i requires 0 <= i < |ids| => RowOf(docs, ids[i]))
  }

  lemma RetrieveRowsWellFormed(docs: map<Bytes, StoredDoc>, ids: seq<Bytes>)
    requires WellFormedDocs(docs)
    ensures RowsWellFormed(RetrieveRows(docs, ids))
  {
    var rows := RetrieveRows(docs, ids);
    forall i | 0 <= i < |rows| && rows[i].version != []
      ensures CompositeKeySep in rows[i].id && Colon in rows[i].version
    {
      assert ids[i] in docs && WellFormedDoc(ids[i], docs[ids[i]]);
    }
  }

  /** The revision a write must name to be accepted: the current one, or none. */
  function CurrentRev(docs: map<Bytes, StoredDoc>, id: Bytes): Option<Bytes>
  {
    if id in docs then Some(docs[id].rev) else None
  }

  /** Whether the database accepts `d` (its `_rev` is the current revision,
      or absent for a document the database does not hold), and the new state. */
  function WriteOne(st: DbState, d: CouchDoc): (DbState, BulkResponse)
  {
    var id := d.fields.id;
    if d.fields.rev != CurrentRev(st.docs, id) then (st, BulkResponse(id, false, ConflictError, ConflictReason))
    else if d.fields.deleted then (DbState(st.docs - {id}, st.updateSeq + 1), BulkResponse(id, true, "", ""))
    else
      var rev := FormatUint(st.updateSeq + 1);
      (DbState(st.docs[id := StoredDoc(rev, StateBody(d.fields.(rev := Some(rev)), d.attachments))], st.updateSeq + 1),
       BulkResponse(id, true, "", ""))
  }

  /** _bulk_docs: every document is tried in order; accepted ones are applied
      even when others are refused. One response per document. */
  function BulkApply(st: DbState, ds: seq<CouchDoc>): (r: (DbState, seq<BulkResponse>))
    decreases |ds|
    ensures |r.1| == |ds|
    ensures forall i :: 0 <= i < |ds| ==> r.1[i].id == ds[i].fields.id
  {
    if ds == [] then (st, [])
    else
      var w := WriteOne(st, ds[0]);
      var rest := BulkApply(w.0, ds[1..]);
      (rest.0, [w.1] + rest.1)
  }

  predicate AllOk(rs: seq<BulkResponse>)
  {
    forall i :: 0 <= i < |rs| ==> rs[i].ok
  }

  predicate DistinctIds(ds: seq<CouchDoc>)
  {
    forall i, j :: 0 <= i < j < |ds| ==> ds[i].fields.id != ds[j].fields.id
  }

  /** The database holds what `d` asked for: nothing for a tombstone, else the
      document's fields (under the revision the database assigned) and attachments. */
  predicate Landed(docs: map<Bytes, StoredDoc>, d: CouchDoc)
  {
    var id := d.fields.id;
    if d.fields.deleted then id !in docs
    else id in docs && docs[id].body == StateBody(d.fields.(rev := Some(docs[id].rev)), d.attachments)
  }

  /** Writes keep the database well formed. */
  lemma {:induction false} BulkApplyWellFormed(st: DbState, ds: seq<CouchDoc>)
    requires WellFormedDocs(st.docs)
    requires forall i :: 0 <= i < |ds| ==> WellFormedWrite(ds[i])
    ensures WellFormedDocs(BulkApply(st, ds).0.docs)
    decreases |ds|
  {
    if ds != [] {
      var st1 := WriteOne(st, ds[0]).0;
      assert WellFormedDocs(st1.docs);
      BulkApplyWellFormed(st1, ds[1..]);
    }
  }

  /** Identifiers no document of the batch names keep their contents. */
  lemma {:induction false} BulkApplyUntouched(st: DbState, ds: seq<CouchDoc>, id: Bytes)
    requires forall i :: 0 <= i < |ds| ==> ds[i].fields.id != id
    ensures var docs := BulkApply(st, ds).0.docs;
            (id in docs <==> id in st.docs) && (id in docs ==> docs[id] == st.docs[id])
    decreases |ds|
  {
    if ds != [] {
      BulkApplyUntouched(WriteOne(st, ds[0]).0, ds[1..], id);
    }
  }

  /** When every response is ok and the identifiers are distinct, every
      document of the batch has landed. */
  lemma {:induction false} BulkApplyLanded(st: DbState, ds: seq<CouchDoc>)
    requires DistinctIds(ds) && AllOk(BulkApply(st, ds).1)
    ensures forall i :: 0 <= i < |ds| ==> Landed(BulkApply(st, ds).0.docs, ds[i])
    decreases |ds|
  {
    if ds != [] {
      var w := WriteOne(st, ds[0]);
      var r := BulkApply(st, ds);
      var rest := BulkApply(w.0, ds[1..]);
      assert r.0 == rest.0 && r.1 == [w.1] + rest.1;
      assert w.1.ok by { assert r.1[0] == w.1; }
      assert AllOk(rest.1) by {
        forall i | 0 <= i < |rest.1|
          ensures rest.1[i].ok
        {
          assert rest.1[i] == r.1[i + 1];
        }
      }
      DistinctTail(ds);
      BulkApplyLanded(w.0, ds[1..]);
      BulkApplyUntouched(w.0, ds[1..], ds[0].fields.id);
      forall i | 0 <= i < |ds|
        ensures Landed(r.0.docs, ds[i])
      {
        if i > 0 {
          assert ds[i] == ds[1..][i - 1];
        }
      }
    }
  }

  lemma DistinctTail(ds: seq<CouchDoc>)
    requires DistinctIds(ds) && ds != []
    ensures DistinctIds(ds[1..])
    ensures forall i :: 0 <= i < |ds[1..]| ==> ds[1..][i].fields.id != ds[0].fields.id
  {
    forall i | 0 <= i < |ds[1..]|
      ensures ds[1..][i].fields.id != ds[0].fields.id
    {
      assert ds[1..][i] == ds[i + 1];
    }
    forall i, j | 0 <= i < j < |ds[1..]|
      ensures ds[1..][i].fields.id != ds[1..][j].fields.id
    {
      assert ds[1..][i] == ds[i + 1] && ds[1..][j] == ds[j + 1];
    }
  }

  /** A response that is not ok leaves that document's identifier as it was. */
  lemma WriteOneRefused(st: DbState, d: CouchDoc)
    requires !WriteOne(st, d).1.ok
    ensures WriteOne(st, d).0 == st
    ensures d.fields.rev != CurrentRev(st.docs, d.fields.id)
    ensures WriteOne(st, d).1 == BulkResponse(d.fields.id, false, ConflictError, ConflictReason)
  {
  }

  /** Every document the bulk write refuses is answered with CouchDB's
      update conflict. */
  lemma {:induction false} BulkRefusalsAreConflicts(st: DbState, ds: seq<CouchDoc>, i: nat)
    requires i < |ds| && !BulkApply(st, ds).1[i].ok
    ensures BulkApply(st, ds).1[i] == BulkResponse(ds[i].fields.id, false, ConflictError, ConflictReason)
    decreases |ds|
  {
    var w := WriteOne(st, ds[0]);
    var rest := BulkApply(w.0, ds[1..]);
    assert BulkApply(st, ds).1 == [w.1] + rest.1;
    if i > 0 {
      assert BulkApply(st, ds).1[i] == rest.1[i - 1];
      BulkRefusalsAreConflicts(w.0, ds[1..], i - 1);
    }
  }

  /** A batch of distinct documents, each naming the revision its identifier
      currently has, is accepted in full. */
  lemma {:induction false} BulkAllAccepted(st: DbState, ds: seq<CouchDoc>)
    requires DistinctIds(ds)
    requires forall i :: 0 <= i < |ds| ==> ds[i].fields.rev == CurrentRev(st.docs, ds[i].fields.id)
    ensures AllOk(BulkApply(st, ds).1)
    decreases |ds|
  {
    if ds != [] {
      var st1 := WriteOne(st, ds[0]).0;
      forall i | 0 <= i < |ds[1..]|
        ensures ds[1..][i].fields.rev == CurrentRev(st1.docs, ds[1..][i].fields.id)
      {
        assert ds[1..][i] == ds[i + 1];
        assert ds[i + 1].fields.id != ds[0].fields.id;
      }
      BulkAllAccepted(st1, ds[1..]);
      var r := BulkApply(st, ds);
      assert r.1 == [WriteOne(st, ds[0]).1] + BulkApply(st1, ds[1..]).1;
    }
  }

  /** A new document written without a revision is accepted. */
  lemma NewDocumentAccepted(st: DbState, d: CouchDoc)
    requires d.fields.id !in st.docs && d.fields.rev.None?
    ensures WriteOne(st, d).1.ok
  {
  }

  /** Insertion into a strictly ascending sequence of identifiers. */
  function Insert(s: seq<Bytes>, x: Bytes): seq<Bytes>
  {
    if s == [] then [x]
    else if Less(x, s[0]) then [x] + s
    else if x == s[0] then s
    else [s[0]] + Insert(s[1..], x)
  }

  lemma {:induction false} InsertAscending(s: seq<Bytes>, x: Bytes)
    requires StrictlyAscending(s)
    ensures StrictlyAscending(Insert(s, x))
    ensures forall y :: y in Insert(s, x) <==> y in s || y == x
    ensures Insert(s, x) != [] && (Insert(s, x)[0] == x || (s != [] && Insert(s, x)[0] == s[0]))
  {
    if s != [] && !Less(x, s[0]) && x != s[0] {
      LessTotal(x, s[0]);
      InsertAscending(s[1..], x);
      var t := Insert(s[1..], x);
      assert Insert(s, x) == [s[0]] + t;
      assert s == [s[0]] + s[1..];
      forall i | 0 <= i < |t|
        ensures Less((([s[0]] + t))[i], ([s[0]] + t)[i + 1])
      {
        if i == 0 {
          assert t[0] == x || t[0] == s[1];
        } else {
          assert ([s[0]] + t)[i] == t[i - 1] && ([s[0]] + t)[i + 1] == t[i];
        }
      }
    }
  }

  lemma {:induction false} AscendingOrdered(s: seq<Bytes>, i: nat, j: nat)
    requires StrictlyAscending(s) && i < j < |s|
    ensures Less(s[i], s[j])
  {
    if j > i + 1 {
      AscendingOrdered(s, i, j - 1);
      LessTransitive(s[i], s[j - 1], s[j]);
    }
  }

  /** In an ascending sequence, the first `n` elements lie below any later one. */
  lemma PrefixBelow(s: seq<Bytes>, n: nat, j: nat)
    requires StrictlyAscending(s) && n <= j < |s|
    ensures forall i :: 0 <= i < n ==> Less(s[i], s[j])
  {
    forall i | 0 <= i < n
      ensures Less(s[i], s[j])
    {
      AscendingOrdered(s, i, j);
    }
  }

  /** Taking the first `limit` of the ascending in-range identifiers leaves
      out only identifiers above everything taken, and only when the limit
      was reached. */
  lemma TakenPrefixComplete(docs: map<Bytes, StoredDoc>, lo: Bytes, hi: Bytes, limit: nat,
                            sorted: seq<Bytes>, rs: seq<QueryResult>)
    requires StrictlyAscending(sorted)
    requires forall y :: y in sorted <==> InRangeState(docs, lo, hi, y)
    requires Ids(rs) == sorted[..if limit < |sorted| then limit else |sorted|]
    ensures forall id :: InRangeState(docs, lo, hi, id) && id !in Ids(rs) ==>
              |rs| == limit && forall i :: 0 <= i < |rs| ==> Less(rs[i].id, id)
  {
    var n := if limit < |sorted| then limit else |sorted|;
    forall id | InRangeState(docs, lo, hi, id) && id !in Ids(rs)
      ensures |rs| == limit && forall i :: 0 <= i < |rs| ==> Less(rs[i].id, id)
    {
      var j :| 0 <= j < |sorted| && sorted[j] == id;
      assert j >= n;
      PrefixBelow(sorted, n, j);
    }
  }

  /** The identifiers of a set in ascending order, by repeated insertion. */
  method SortIds(ids: set<Bytes>) returns (sorted: seq<Bytes>)
    ensures StrictlyAscending(sorted)
    ensures forall y :: y in sorted <==> y in ids
  {
    sorted := [];
    var remaining := ids;
    while remaining != {}
      invariant remaining <= ids
      invariant StrictlyAscending(sorted)
      invariant forall y :: y in sorted <==> y in ids && y !in remaining
      decreases remaining
    {
      var x :| x in remaining;
      InsertAscending(sorted, x);
      sorted := Insert(sorted, x);
      remaining := remaining - {x};
    }
  }

  function Ids(rs: seq<QueryResult>): (ids: seq<Bytes>)
    ensures |ids| == |rs| && forall i :: 0 <= i < |rs| ==> ids[i] == rs[i].id
  {
    seq(|rs|, i requires 0 <= i < |rs| => rs[i].id)
  }

  predicate InRangeState(docs: map<Bytes, StoredDoc>, lo: Bytes, hi: Bytes, id: Bytes)
  {
    id in docs && docs[id].body.StateBody? && InRange(id, lo, hi)
  }

  /** What _all_docs with startkey, endkey (exclusive) and limit answers: the
      state documents whose identifiers lie in [lo, hi), in ascending order of
      identifier, the first `limit` of them. */
  ghost predicate RangeAnswer(docs: map<Bytes, StoredDoc>, lo: Bytes, hi: Bytes, limit: nat, rs: seq<QueryResult>)
  {
    && |rs| <= limit
    && StrictlyAscending(Ids(rs))
    && (forall i :: 0 <= i < |rs| ==>
          InRangeState(docs, lo, hi, rs[i].id) && docs[rs[i].id].body == StateBody(rs[i].value, rs[i].attachments))
    && (forall id :: InRangeState(docs, lo, hi, id) && id !in Ids(rs) ==>
          |rs| == limit && forall i :: 0 <= i < |rs| ==> Less(rs[i].id, id))
  }

  class DocStore {
    var docs: map<Bytes, StoredDoc>
    var updateSeq: nat
    var faults: Faults
    var queryAnswers: map<Bytes, seq<QueryResult>>
    var log: seq<Call>

    ghost predicate Valid()
      reads this
    {
      && WellFormedDocs(docs)
      && forall q | q in queryAnswers :: WellFormedResults(queryAnswers[q])
    }

    function State(): DbState
      reads this
    {
      DbState(docs, updateSeq)
    }

    /** An empty database (CreateCouchDatabase of a name not yet used). */
    constructor (faults: Faults)
      ensures Valid() && docs == map[] && updateSeq == 0 && log == []
      ensures this.faults == faults && queryAnswers == map[]
    {
      docs := map[];
      updateSeq := 0;
      this.faults := faults;
      queryAnswers := map[];
      log := [];
    }

    /** ReadDoc: the document, or None (not an error) when there is none. */
    method ReadDoc(id: Bytes) returns (r: Result<Option<StoredDoc>, Error>)
      modifies this`log
      ensures log == old(log) + [Call.ReadDoc(id)]
      ensures r == if faults.readFails then Failure(StoreError)
                   else Success(if id in docs then Some(docs[id]) else None)
    {
      log := log + [Call.ReadDoc(id)];
      if faults.readFails {
        r := Failure(StoreError);
      } else {
        r := Success(if id in docs then Some(docs[id]) else None);
      }
    }

    /** BatchRetrieve (_all_docs with keys). */
    method BatchRetrieve(ids: seq<Bytes>, includeDocs: bool) returns (r: Result<seq<IdVersion>, Error>)
      modifies this`log
      ensures log == old(log) + [Call.BatchRetrieve(ids, includeDocs)]
      ensures r == if faults.retrieveFails then Failure(StoreError) else Success(RetrieveRows(docs, ids))
    {
      log := log + [Call.BatchRetrieve(ids, includeDocs)];
      if faults.retrieveFails {
        r := Failure(StoreError);
      } else {
        r := Success(RetrieveRows(docs, ids));
      }
    }

    /** BatchUpdateDocuments (_bulk_docs). A transport failure applies nothing. */
    method BatchUpdateDocuments(ds: seq<CouchDoc>) returns (r: Result<seq<BulkResponse>, Error>)
      requires Valid() && forall i :: 0 <= i < |ds| ==> WellFormedWrite(ds[i])
      modifies this`docs, this`updateSeq, this`log
      ensures Valid()
      ensures log == old(log) + [Call.BatchUpdateDocuments(ds)]
      ensures faults.bulkFails ==> r == Failure(StoreError) && State() == old(State())
      ensures !faults.bulkFails ==> r == Success(BulkApply(old(State()), ds).1) && State() == BulkApply(old(State()), ds).0
    {
      log := log + [Call.BatchUpdateDocuments(ds)];
      if faults.bulkFails {
        r := Failure(StoreError);
      } else {
        BulkApplyWellFormed(State(), ds);
        var (st, resp) := BulkApply(State(), ds);
        docs, updateSeq := st.docs, st.updateSeq;
        r := Success(resp);
      }
    }

    /** EnsureFullCommit: Success(ok flag) or a transport failure. */
    method EnsureFullCommit() returns (r: Result<bool, Error>)
      modifies this`log
      ensures log == old(log) + [Call.EnsureFullCommit]
      ensures r == match faults.fullCommit
                   case CommitOk => Success(true)
                   case CommitNotOk => Success(false)
                   case CommitError => Failure(StoreError)
    {
      log := log + [Call.EnsureFullCommit];
      match faults.fullCommit {
        case CommitOk => r := Success(true);
        case CommitNotOk => r := Success(false);
        case CommitError => r := Failure(StoreError);
      }
    }

    /** GetDatabaseInfo: the update sequence cursor, as text. */
    method GetDatabaseInfo() returns (r: Result<Bytes, Error>)
      modifies this`log
      ensures log == old(log) + [Call.GetDatabaseInfo]
      ensures r == if faults.infoFails then Failure(StoreError) else Success(FormatUint(updateSeq))
    {
      log := log + [Call.GetDatabaseInfo];
      r := if faults.infoFails then Failure(StoreError) else Success(FormatUint(updateSeq));
    }

    /** SaveDoc with an empty revision: the client looks up the current
      revision itself, so the document is created or overwritten. */
    method SaveDoc(id: Bytes, body: Body) returns (r: Result<Bytes, Error>)
      requires Valid() && WellFormedBody(id, body)
      modifies this`docs, this`updateSeq, this`log
      ensures Valid()
      ensures log == old(log) + [Call.SaveDoc(id)]
      ensures faults.saveFails ==> r == Failure(StoreError) && State() == old(State())
      ensures !faults.saveFails ==>
                r == Success(FormatUint(old(updateSeq) + 1))
                && docs == old(docs)[id := StoredDoc(FormatUint(old(updateSeq) + 1), body)]
                && updateSeq == old(updateSeq) + 1
    {
      log := log + [Call.SaveDoc(id)];
      if faults.saveFails {
        r := Failure(StoreError);
      } else {
        var rev := FormatUint(updateSeq + 1);
        docs := docs[id := StoredDoc(rev, body)];
        updateSeq := updateSeq + 1;
        r := Success(rev);
      }
    }

    /** QueryDocuments: the Mango engine's answer, chosen by the environment. */
    method QueryDocuments(query: Bytes) returns (r: Result<seq<QueryResult>, Error>)
      requires Valid()
      modifies this`log
      ensures log == old(log) + [Call.QueryDocuments(query)]
      ensures r == if faults.readFails then Failure(StoreError)
                   else Success(if query in queryAnswers then queryAnswers[query] else [])
      ensures r.Success? ==> WellFormedResults(r.value)
    {
      log := log + [Call.QueryDocuments(query)];
      if faults.readFails {
        r := Failure(StoreError);
      } else {
        r := Success(if query in queryAnswers then queryAnswers[query] else []);
      }
    }

    /** ReadDocRange (_all_docs with startkey, endkey, limit). */
    method ReadDocRange(lo: Bytes, hi: Bytes, limit: nat) returns (r: Result<seq<QueryResult>, Error>)
      requires Valid()
      modifies this`log
      ensures log == old(log) + [Call.ReadDocRange(lo, hi, limit)]
      ensures faults.readFails <==> r.Failure?
      ensures r.Success? ==> RangeAnswer(docs, lo, hi, limit, r.value) && WellFormedResults(r.value)
    {
      if faults.readFails {
        log := log + [Call.ReadDocRange(lo, hi, limit)];
        r := Failure(StoreError);
        return;
      }
      var ids := set id | id in docs && InRangeState(docs, lo, hi, id);
      var sorted := SortIds(ids);
      var n := if limit < |sorted| then limit else |sorted|;
      var rs: seq<QueryResult> := [];
      for k := 0 to n
        invariant log == old(log)
        invariant |rs| == k
        invariant forall i :: 0 <= i < k ==>
                    rs[i].id == sorted[i] && InRangeState(docs, lo, hi, rs[i].id)
                    && docs[rs[i].id].body == StateBody(rs[i].value, rs[i].attachments)
      {
        assert sorted[k] in ids;
        var d := docs[sorted[k]];
        rs := rs + [QueryResult(sorted[k], d.body.fields, d.body.attachments)];
      }
      assert Ids(rs) == sorted[..n];
      TakenPrefixComplete(docs, lo, hi, limit, sorted, rs);
      log := log + [Call.ReadDocRange(lo, hi, limit)];
      r := Success(rs);
    }
  }
}
