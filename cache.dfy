/** CommittedVersions: the per-call cache of committed versions, CouchDB
    revisions and values that LoadCommittedVersions and LoadCommittedValues
    fill from one bulk read, and ClearCachedVersions throws away. */
module VersionCache {
  import opened Wrappers
  import opened ByteStrings
  import opened CompositeKeys
  import opened Versions
  import opened Store

  /** The three maps as values. A version of None is a nil *Height, a value
      of None a nil slice. */
  datatype CacheView = CacheView(
    versions: map<CompositeKey, Option<Height>>,
    revisions: map<CompositeKey, Bytes>,
    values: map<CompositeKey, Option<Bytes>>)

  const EmptyCache := CacheView(map[], map[], map[])

  /** The two caches agree at `k`, in all three maps. */
  predicate AgreeAt(c1: CacheView, c2: CacheView, k: CompositeKey)
  {
    && (k in c1.versions <==> k in c2.versions) && (k in c1.versions ==> c1.versions[k] == c2.versions[k])
    && (k in c1.revisions <==> k in c2.revisions) && (k in c1.revisions ==> c1.revisions[k] == c2.revisions[k])
    && (k in c1.values <==> k in c2.values) && (k in c1.values ==> c1.values[k] == c2.values[k])
  }

  /** The identifiers of `keys`, in order. */
  function IdsOf(keys: seq<CompositeKey>): (ids: seq<Bytes>)
    ensures |ids| == |keys| && forall i :: 0 <= i < |keys| ==> ids[i] == IdOf(keys[i])
  {
    seq(|keys|, i requires 0 <= i < |keys| => IdOf(keys[i]))
  }

  /** The first loop of both loaders: a negative entry (nil version, empty
      revision) for every requested key. */
  function Seed(c: CacheView, keys: seq<CompositeKey>): CacheView
  {
    if keys == [] then c
    else
      var c1 := Seed(c, keys[..|keys| - 1]);
      var k := keys[|keys| - 1];
      c1.(versions := c1.versions[k := None], revisions := c1.revisions[k := []])
  }

  /** A row that overwrites the entry of `k`: it reports a version and its
      identifier splits to `k`. */
  predicate Hits(row: IdVersion, k: CompositeKey)
  {
    row.version != [] && CompositeKeySep in row.id && KeyOfId(row.id) == k
  }

  /** The second loop of both loaders: every row reporting a version sets the
      parsed version and the revision of the key its identifier splits to; the
      value loader also stores a nil value there. */
  function ApplyRows(c: CacheView, rows: seq<IdVersion>, withValues: bool): CacheView
    requires RowsWellFormed(rows)
  {
    if rows == [] then c
    else
      var c1 := ApplyRows(c, rows[..|rows| - 1], withValues);
      var row := rows[|rows| - 1];
      if row.version == [] then c1
      else
        var k := KeyOfId(row.id);
        CacheView(c1.versions[k := Some(CreateVersionFromString(row.version))],
                  c1.revisions[k := row.rev],
                  if withValues then c1.values[k := None] else c1.values)
  }

  /** The entry a hitting row leaves at `k`. */
  predicate SetBy(c0: CacheView, c: CacheView, k: CompositeKey, row: IdVersion, withValues: bool)
    requires Colon in row.version
  {
    && k in c.versions && c.versions[k] == Some(CreateVersionFromString(row.version))
    && k in c.revisions && c.revisions[k] == row.rev
    && (withValues ==> k in c.values && c.values[k] == None)
    && (!withValues ==> (k in c.values <==> k in c0.values) && (k in c0.values ==> c.values[k] == c0.values[k]))
  }

  lemma {:induction false} SeedAt(c: CacheView, keys: seq<CompositeKey>, k: CompositeKey)
    ensures var c1 := Seed(c, keys);
            c1.values == c.values
            && (k in keys ==> k in c1.versions && c1.versions[k] == None && k in c1.revisions && c1.revisions[k] == [])
            && (k !in keys ==> AgreeAt(c, c1, k))
  {
    if keys != [] {
      var init := keys[..|keys| - 1];
      SeedAt(c, init, k);
      assert keys == init + [keys[|keys| - 1]];
    }
  }

  /** Rows that do not hit `k` leave its entry alone. */
  lemma {:induction false} ApplyRowsMiss(c: CacheView, rows: seq<IdVersion>, withValues: bool, k: CompositeKey)
    requires RowsWellFormed(rows)
    requires forall j :: 0 <= j < |rows| ==> !Hits(rows[j], k)
    ensures AgreeAt(c, ApplyRows(c, rows, withValues), k)
  {
    if rows != [] {
      var init := rows[..|rows| - 1];
      assert forall j :: 0 <= j < |init| ==> init[j] == rows[j];
      ApplyRowsMiss(c, init, withValues, k);
    }
  }

  /** When every row hitting `k` is `row`, and `rows[j]` is one, the entry is
      the one `row` sets. */
  lemma {:induction false} ApplyRowsHit(c: CacheView, rows: seq<IdVersion>, withValues: bool, k: CompositeKey, row: IdVersion, j: nat)
    requires RowsWellFormed(rows)
    requires forall i :: 0 <= i < |rows| && Hits(rows[i], k) ==> rows[i] == row
    requires j < |rows| && Hits(rows[j], k)
    ensures Colon in row.version && SetBy(c, ApplyRows(c, rows, withValues), k, row, withValues)
  {
    var init := rows[..|rows| - 1];
    var last := rows[|rows| - 1];
    assert forall i :: 0 <= i < |init| ==> init[i] == rows[i];
    if Hits(last, k) {
      assert last == row;
      if j < |init| {
        ApplyRowsHit(c, init, withValues, k, row, j);
      } else if exists i :: 0 <= i < |init| && Hits(init[i], k) {
        var i :| 0 <= i < |init| && Hits(init[i], k);
        ApplyRowsHit(c, init, withValues, k, row, i);
      } else {
        ApplyRowsMiss(c, init, withValues, k);
      }
    } else {
      ApplyRowsHit(c, init, withValues, k, row, j);
    }
  }

  /** What one loader call does to the cache. */
  function Load(c: CacheView, keys: seq<CompositeKey>, rows: seq<IdVersion>, withValues: bool): CacheView
    requires RowsWellFormed(rows)
  {
    ApplyRows(Seed(c, keys), rows, withValues)
  }

  /** The rows the loaders see: the bulk read's answer, or none when it
      fails (its error is dropped). */
  function RowsFor(docs: map<Bytes, StoredDoc>, retrieveFails: bool, keys: seq<CompositeKey>): (rows: seq<IdVersion>)
    requires WellFormedDocs(docs)
    ensures RowsWellFormed(rows)
  {
    if retrieveFails then []
    else
      RetrieveRowsWellFormed(docs, IdsOf(keys));
      RetrieveRows(docs, IdsOf(keys))
  }

  /** The database reports a version for `k`. */
  predicate Reported(docs: map<Bytes, StoredDoc>, retrieveFails: bool, k: CompositeKey)
  {
    !retrieveFails && IdOf(k) in docs && docs[IdOf(k)].body.StateBody?
  }

  predicate SeparatorFreeKeys(keys: seq<CompositeKey>)
  {
    forall i :: 0 <= i < |keys| ==> SeparatorFree(keys[i].namespace)
  }

  /** A row of the bulk read hits `k` only when it is the row for `k`. */
  lemma OnlyOwnRowHits(docs: map<Bytes, StoredDoc>, retrieveFails: bool, keys: seq<CompositeKey>, k: CompositeKey)
    requires WellFormedDocs(docs) && SeparatorFreeKeys(keys)
    ensures var rows := RowsFor(docs, retrieveFails, keys);
            forall j :: 0 <= j < |rows| && Hits(rows[j], k) ==> rows[j] == RowOf(docs, IdOf(k)) && k == keys[j]
  {
    var rows := RowsFor(docs, retrieveFails, keys);
    forall j | 0 <= j < |rows| && Hits(rows[j], k)
      ensures rows[j] == RowOf(docs, IdOf(k)) && k == keys[j]
    {
      KeyOfIdOf(keys[j]);
    }
  }

  /** LoadCommittedVersions / LoadCommittedValues, key by key: every
      requested key gets an entry in both the version and revision maps; a key
      the database does not report stays (nil, ""); a reported key gets the
      version parsed from the stored document and its revision (and, for the
      value loader, a nil value); every other key is as it was. */
  lemma LoadAt(c: CacheView, docs: map<Bytes, StoredDoc>, retrieveFails: bool, keys: seq<CompositeKey>,
               withValues: bool, k: CompositeKey)
    requires WellFormedDocs(docs) && SeparatorFreeKeys(keys)
    ensures var c1 := Load(c, keys, RowsFor(docs, retrieveFails, keys), withValues);
            && (k !in keys ==> AgreeAt(c, c1, k))
            && (k in keys && !Reported(docs, retrieveFails, k) ==>
                  k in c1.versions && c1.versions[k] == None && k in c1.revisions && c1.revisions[k] == []
                  && (k in c1.values <==> k in c.values) && (k in c.values ==> c1.values[k] == c.values[k]))
            && (k in keys && Reported(docs, retrieveFails, k) ==>
                  var f := docs[IdOf(k)].body.fields;
                  Colon in f.version
                  && k in c1.versions && c1.versions[k] == Some(CreateVersionFromString(f.version))
                  && k in c1.revisions && c1.revisions[k] == docs[IdOf(k)].rev
                  && (withValues ==> k in c1.values && c1.values[k] == None)
                  && (!withValues ==> (k in c1.values <==> k in c.values) && (k in c.values ==> c1.values[k] == c.values[k])))
  {
    var rows := RowsFor(docs, retrieveFails, keys);
    var c0 := Seed(c, keys);
    SeedAt(c, keys, k);
    var row := RowOf(docs, IdOf(k));
    OnlyOwnRowHits(docs, retrieveFails, keys, k);
    if k in keys && Reported(docs, retrieveFails, k) {
      var j :| 0 <= j < |keys| && keys[j] == k;
      KeyOfIdOf(k);
      assert WellFormedDoc(IdOf(k), docs[IdOf(k)]);
      assert Hits(rows[j], k);
      ApplyRowsHit(c0, rows, withValues, k, row, j);
    } else {
      ApplyRowsMiss(c0, rows, withValues, k);
    }
  }

  /** The cache as an object whose three maps the loaders update in place. */
  class CommittedVersions {
    var committedVersions: map<CompositeKey, Option<Height>>
    var revisionNumbers: map<CompositeKey, Bytes>
    var committedValues: map<CompositeKey, Option<Bytes>>

    function View(): CacheView
      reads this
    {
      CacheView(committedVersions, revisionNumbers, committedValues)
    }

    constructor ()
      ensures View() == EmptyCache
    {
      committedVersions := map[];
      revisionNumbers := map[];
      committedValues := map[];
    }

    /** The first loop of both loaders; it also collects the identifiers
        the bulk read asks for. */
    method SeedKeys(keys: seq<CompositeKey>) returns (ids: seq<Bytes>)
      modifies this
      ensures ids == IdsOf(keys)
      ensures View() == Seed(old(View()), keys)
    {
      ids := [];
      for i := 0 to |keys|
        invariant ids == IdsOf(keys[..i])
        invariant View() == Seed(old(View()), keys[..i])
      {
        var k := keys[i];
        assert keys[..i + 1][..i] == keys[..i];
        ids := ids + [ConstructCompositeKey(k.namespace, k.key)];
        committedVersions := committedVersions[k := None];
        revisionNumbers := revisionNumbers[k := []];
      }
      assert keys[..|keys|] == keys;
    }

    /** The second loop of both loaders, over the rows of the bulk read. */
    method RecordRows(rows: seq<IdVersion>, withValues: bool)
      requires RowsWellFormed(rows)
      modifies this
      ensures View() == ApplyRows(old(View()), rows, withValues)
    {
      for i := 0 to |rows|
        invariant View() == ApplyRows(old(View()), rows[..i], withValues)
      {
        var row := rows[i];
        assert rows[..i + 1][..i] == rows[..i];
        if row.version != [] {
          var k := KeyOfId(row.id);
          committedVersions := committedVersions[k := Some(CreateVersionFromString(row.version))];
          revisionNumbers := revisionNumbers[k := row.rev];
          if withValues {
            committedValues := committedValues[k := None];
          }
        }
      }
      assert rows[..|rows|] == rows;
    }
  }
}
