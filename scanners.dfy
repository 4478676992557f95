/** kvScanner and queryScanner: cursors over the records a range read or a
    rich query returned, each turned into a key, a value and a version. */
module Scanners {
  import opened Wrappers
  import opened ByteStrings
  import opened CompositeKeys
  import opened Versions
  import opened Documents
  import opened Store

  /** statedb.VersionedValue: a nil value or version is None. */
  datatype VersionedValue = VersionedValue(value: Option<Bytes>, version: Option<Height>)

  /** statedb.VersionedKV */
  datatype VersionedKV = VersionedKV(key: CompositeKey, value: VersionedValue)

  /** The value and version removeDataWrapper reads from a record. */
  function RecordValue(codec: JsonCodec, r: QueryResult): (vv: VersionedValue)
    requires WellFormedResult(r)
    ensures vv.value.Some? && vv.version.Some?
    ensures vv.version.value == CreateVersionFromString(r.value.version)
  {
    var (v, h) := Unwrapped(codec, r.value, r.attachments);
    VersionedValue(Some(v), Some(h))
  }

  /** kvScanner.Next's record: the namespace is the scanner's, the key what
      follows the first separator of the identifier. */
  function KVRecord(codec: JsonCodec, ns: Bytes, r: QueryResult): VersionedKV
    requires WellFormedResult(r)
  {
    VersionedKV(CompositeKey(ns, SplitCompositeKey(r.id).1), RecordValue(codec, r))
  }

  /** queryScanner.Next's record: namespace and key both split from the identifier. */
  function QueryRecord(codec: JsonCodec, r: QueryResult): (kv: VersionedKV)
    requires WellFormedResult(r)
    ensures IdOf(kv.key) == r.id
  {
    VersionedKV(KeyOfId(r.id), RecordValue(codec, r))
  }

  /** The two scanners read the same record when its identifier lies in the
      kv scanner's namespace. */
  lemma ScannersAgree(codec: JsonCodec, ns: Bytes, r: QueryResult)
    requires WellFormedResult(r) && SplitCompositeKey(r.id).0 == ns
    ensures KVRecord(codec, ns, r) == QueryRecord(codec, r)
  {
  }

  function KVRecords(codec: JsonCodec, ns: Bytes, rs: seq<QueryResult>): (kvs: seq<VersionedKV>)
    requires WellFormedResults(rs)
    ensures |kvs| == |rs| && forall i :: 0 <= i < |rs| ==> kvs[i] == KVRecord(codec, ns, rs[i])
  {
    seq(|rs|, i requires 0 <= i < |rs| && WellFormedResult(rs[i]) => KVRecord(codec, ns, rs[i]))
  }

  function QueryRecords(codec: JsonCodec, rs: seq<QueryResult>): (kvs: seq<VersionedKV>)
    requires WellFormedResults(rs)
    ensures |kvs| == |rs| && forall i :: 0 <= i < |rs| ==> kvs[i] == QueryRecord(codec, rs[i])
  {
    seq(|rs|, i requires 0 <= i < |rs| && WellFormedResult(rs[i]) => QueryRecord(codec, rs[i]))
  }

  lemma KVRecordsSnoc(codec: JsonCodec, ns: Bytes, rs: seq<QueryResult>, r: QueryResult)
    requires WellFormedResults(rs) && WellFormedResult(r)
    ensures WellFormedResults(rs + [r])
    ensures KVRecords(codec, ns, rs + [r]) == KVRecords(codec, ns, rs) + [KVRecord(codec, ns, r)]
  {
    assert forall i :: 0 <= i < |rs| ==> (rs + [r])[i] == rs[i];
  }

  lemma QueryRecordsSnoc(codec: JsonCodec, rs: seq<QueryResult>, r: QueryResult)
    requires WellFormedResults(rs) && WellFormedResult(r)
    ensures WellFormedResults(rs + [r])
    ensures QueryRecords(codec, rs + [r]) == QueryRecords(codec, rs) + [QueryRecord(codec, r)]
  {
    assert forall i :: 0 <= i < |rs| ==> (rs + [r])[i] == rs[i];
  }

  /** How many records a scanner at `cursor` has handed out. */
  function Consumed(cursor: int, n: nat): nat
  {
    if cursor + 1 <= 0 then 0 else if cursor + 1 < n then cursor + 1 else n
  }

  class KVScanner {
    var cursor: int
    const namespace: Bytes
    const results: seq<QueryResult>
    const codec: JsonCodec
    /** The records Next has returned so far. */
    ghost var returned: seq<VersionedKV>

    /** What has been returned is the decoded prefix of the results, in order. */
    ghost predicate Valid()
      reads this
    {
      && -1 <= cursor
      && WellFormedResults(results)
      && returned == KVRecords(codec, namespace, results[..Consumed(cursor, |results|)])
    }

    /** newKVScanner */
    constructor (namespace: Bytes, results: seq<QueryResult>, codec: JsonCodec)
      requires WellFormedResults(results)
      ensures Valid() && cursor == -1 && returned == []
      ensures this.namespace == namespace && this.results == results && this.codec == codec
    {
      cursor := -1;
      this.namespace := namespace;
      this.results := results;
      this.codec := codec;
      returned := [];
    }

    method Next() returns (r: Option<VersionedKV>)
      requires Valid()
      modifies this
      ensures Valid()
      ensures cursor == old(cursor) + 1
      ensures cursor < |results| ==> r == Some(KVRecord(codec, namespace, results[cursor]))
      ensures cursor >= |results| ==> r == None
      ensures returned == old(returned) + (if r.Some? then [r.value] else [])
    {
      cursor := cursor + 1;
      if cursor >= |results| {
        assert Consumed(cursor, |results|) == Consumed(cursor - 1, |results|);
        return None;
      }
      var selected := results[cursor];
      var key := SplitCompositeKey(selected.id).1;
      var value, version := RemoveDataWrapper(codec, selected.value, selected.attachments);
      r := Some(VersionedKV(CompositeKey(namespace, key), VersionedValue(Some(value), Some(version))));
      assert results[..cursor + 1] == results[..cursor] + [selected];
      KVRecordsSnoc(codec, namespace, results[..cursor], selected);
      returned := returned + [r.value];
    }
  }

  class QueryScanner {
    var cursor: int
    const results: seq<QueryResult>
    const codec: JsonCodec
    /** The records Next has returned so far. */
    ghost var returned: seq<VersionedKV>

    ghost predicate Valid()
      reads this
    {
      && -1 <= cursor
      && WellFormedResults(results)
      && returned == QueryRecords(codec, results[..Consumed(cursor, |results|)])
    }

    /** newQueryScanner */
    constructor (results: seq<QueryResult>, codec: JsonCodec)
      requires WellFormedResults(results)
      ensures Valid() && cursor == -1 && returned == []
      ensures this.results == results && this.codec == codec
    {
      cursor := -1;
      this.results := results;
      this.codec := codec;
      returned := [];
    }

    method Next() returns (r: Option<VersionedKV>)
      requires Valid()
      modifies this
      ensures Valid()
      ensures cursor == old(cursor) + 1
      ensures cursor < |results| ==> r == Some(QueryRecord(codec, results[cursor]))
      ensures cursor >= |results| ==> r == None
      ensures returned == old(returned) + (if r.Some? then [r.value] else [])
    {
      cursor := cursor + 1;
      if cursor >= |results| {
        assert Consumed(cursor, |results|) == Consumed(cursor - 1, |results|);
        return None;
      }
      var selected := results[cursor];
      var key := KeyOfId(selected.id);
      var value, version := RemoveDataWrapper(codec, selected.value, selected.attachments);
      r := Some(VersionedKV(key, VersionedValue(Some(value), Some(version))));
      assert results[..cursor + 1] == results[..cursor] + [selected];
      QueryRecordsSnoc(codec, results[..cursor], selected);
      returned := returned + [r.value];
    }
  }
}
