/** The value codec: how a value, its height and its namespace become the
    CouchDB document that ApplyUpdates writes, and how removeDataWrapper reads
    a value and height back from a stored document. */
module Documents {
  import opened Wrappers
  import opened ByteStrings
  import opened CompositeKeys
  import opened Versions
  import opened Utf8

  /** binaryWrapper: the name of the attachment that carries a non-JSON value. */
  const BinaryWrapper: string := "valueBytes"
  const OctetStream: string := "application/octet-stream"

  /** What json.Marshal(nil) produces. */
  const JsonNull: Bytes := [0x6E, 0x75, 0x6C, 0x6C]  // "null"

  /** The two JSON services the codec relies on, which live outside this file:
      couchdb.IsJSON, and the decode-then-encode that removeDataWrapper applies
      to inline data (not byte-preserving in general). */
  datatype JsonCodec = JsonCodec(isJson: Bytes -> bool, remarshal: Bytes -> Bytes)

  datatype Attachment = Attachment(name: string, contentType: string, data: Bytes)

  /** The JSON object addCouchDBFieldsToValue marshals: `_id`, `_rev` when
      known, `version`, `_deleted` for tombstones, `chaincodeid` and the inline
      `data` field otherwise. */
  datatype DocFields = DocFields(
    id: Bytes,
    rev: Option<Bytes>,
    version: Bytes,
    deleted: bool,
    chaincodeId: Option<Bytes>,
    data: Option<Bytes>)

  /** couchdb.CouchDoc: the JSON value and the (possibly nil) attachment list. */
  datatype CouchDoc = CouchDoc(fields: DocFields, attachments: Option<seq<Attachment>>)

  /** addCouchDBFieldsToValue. `value` is None for a nil slice. The `_id`
      and `chaincodeid` strings pass through json.Marshal, so the database
      holds them as `JsonString` gives them: as written when they are
      well-formed UTF-8, with U+FFFD in place of each ill-formed byte otherwise. */
  function AddCouchDBFieldsToValue(id: Bytes, revision: Bytes, value: Option<Bytes>, chaincodeId: Bytes,
                                   version: Height, deleted: bool): (f: DocFields)
    ensures f.id == JsonString(id) && ValidUtf8(f.id) && (ValidUtf8(id) ==> f.id == id)
    ensures f.deleted == deleted
    ensures Colon in f.version && CreateVersionFromString(f.version) == version
    ensures f.rev.Some? <==> revision != []
    ensures f.rev.Some? ==> f.rev.value == revision
    ensures deleted ==> f.chaincodeId.None? && f.data.None?
    ensures !deleted ==> f.chaincodeId == Some(JsonString(chaincodeId)) && f.data == value
    ensures !deleted && ValidUtf8(chaincodeId) ==> f.chaincodeId == Some(chaincodeId)
  {
    VersionRoundTrip(version);
    JsonStringValid(id);
    JsonStringOfValid(id);
    JsonStringOfValid(chaincodeId);
    DocFields(JsonString(id), if revision == [] then None else Some(revision), FormatVersion(version), deleted,
              if deleted then None else Some(JsonString(chaincodeId)),
              if deleted then None else value)
  }

  /** The document ApplyUpdates builds for one update: a tombstone for a nil
      value, inline data for a JSON value, otherwise a `valueBytes`
      octet-stream attachment and no inline data. */
  function BuildDocument(codec: JsonCodec, ns: Bytes, key: Bytes, revision: Bytes,
                         value: Option<Bytes>, version: Height): CouchDoc
  {
    var id := ConstructCompositeKey(ns, key);
    if value.None? then
      CouchDoc(AddCouchDBFieldsToValue(id, revision, None, ns, version, true), None)
    else if codec.isJson(value.value) then
      CouchDoc(AddCouchDBFieldsToValue(id, revision, value, ns, version, false), None)
    else
      CouchDoc(AddCouchDBFieldsToValue(id, revision, None, ns, version, false),
               Some([Attachment(BinaryWrapper, OctetStream, value.value)]))
  }

  /** The namespace and key ValidateKey accepts make an identifier that is
      well-formed UTF-8. */
  lemma CompositeKeyValid(ns: Bytes, key: Bytes)
    requires ValidUtf8(ns) && ValidUtf8(key)
    ensures ValidUtf8(ConstructCompositeKey(ns, key))
  {
    AsciiValid(CompositeKeySep);
    ValidUtf8Append(ns, [CompositeKeySep]);
    ValidUtf8Append(ns + [CompositeKeySep], key);
  }

  /** The document ApplyUpdates builds for one update lives under the
      composite key as json.Marshal writes it (the composite key itself when
      namespace and key are well-formed UTF-8), names the revision when one is
      known, carries a version that parses back to the update's height, and
      is a tombstone for a nil value, inline data for a JSON value, and
      otherwise a `valueBytes` octet-stream attachment with no inline data. */
  lemma BuildDocumentShape(codec: JsonCodec, ns: Bytes, key: Bytes, revision: Bytes, value: Option<Bytes>, version: Height)
    ensures var d := BuildDocument(codec, ns, key, revision, value, version);
            && d.fields.id == JsonString(ConstructCompositeKey(ns, key))
            && (ValidUtf8(ns) && ValidUtf8(key) ==> d.fields.id == ConstructCompositeKey(ns, key))
            && CompositeKeySep in d.fields.id
            && Colon in d.fields.version && CreateVersionFromString(d.fields.version) == version
            && (d.fields.rev.Some? <==> revision != [])
            && (d.fields.rev.Some? ==> d.fields.rev.value == revision)
            && (d.fields.deleted <==> value.None?)
            && (value.None? ==> d.fields.chaincodeId.None? && d.fields.data.None? && d.attachments.None?)
            && (value.Some? ==> d.fields.chaincodeId == Some(JsonString(ns)))
            && (value.Some? && ValidUtf8(ns) ==> d.fields.chaincodeId == Some(ns))
            && (value.Some? && codec.isJson(value.value) ==> d.fields.data == value && d.attachments.None?)
            && (value.Some? && !codec.isJson(value.value) ==>
                  d.fields.data.None? && d.attachments == Some([Attachment(BinaryWrapper, OctetStream, value.value)]))
  {
    var id := ConstructCompositeKey(ns, key);
    assert id[|ns|] == CompositeKeySep;
    JsonStringKeepsAscii(id, CompositeKeySep);
    if ValidUtf8(ns) && ValidUtf8(key) {
      CompositeKeyValid(ns, key);
    }
  }

  /** The bytes of the last attachment named `valueBytes`, if any. */
  function BinaryAttachment(atts: seq<Attachment>): Option<Bytes>
  {
    if atts == [] then None
    else if atts[|atts| - 1].name == BinaryWrapper then Some(atts[|atts| - 1].data)
    else BinaryAttachment(atts[..|atts| - 1])
  }

  /** What removeDataWrapper returns: the attachment bytes when there is no
      inline data and the attachment list is not nil (empty when no attachment
      has the binary name); otherwise the re-marshalled inline data (JSON null
      when there is none); and the height parsed from the version field.
      Go also takes the attachment branch for inline data that is JSON `null`
      beside a non-nil attachment list; here such data goes to the re-marshal
      branch. The adapter never writes that combination. */
  function Unwrapped(codec: JsonCodec, fields: DocFields, attachments: Option<seq<Attachment>>): (Bytes, Height)
    requires Colon in fields.version
  {
    var value :=
      if fields.data.None? && attachments.Some? then
        match BinaryAttachment(attachments.value)
        case Some(b) => b
        case None => []
      else if fields.data.Some? then codec.remarshal(fields.data.value)
      else JsonNull;
    (value, CreateVersionFromString(fields.version))
  }

  /** removeDataWrapper, with its loop over the attachments. */
  method RemoveDataWrapper(codec: JsonCodec, fields: DocFields, attachments: Option<seq<Attachment>>)
    returns (value: Bytes, version: Height)
    requires Colon in fields.version
    ensures (value, version) == Unwrapped(codec, fields, attachments)
  {
    value := [];
    if fields.data.None? && attachments.Some? {
      var atts := attachments.value;
      var i := 0;
      while i < |atts|
        invariant 0 <= i <= |atts|
        invariant value == match BinaryAttachment(atts[..i]) case Some(b) => b case None => []
      {
        if atts[i].name == BinaryWrapper {
          value := atts[i].data;
        }
        assert atts[..i + 1][..i] == atts[..i];
        i := i + 1;
      }
      assert atts[..i] == atts;
    } else if fields.data.Some? {
      value := codec.remarshal(fields.data.value);
    } else {
      value := JsonNull;
    }
    version := CreateVersionFromString(fields.version);
  }

  /** Reading back a document written for a non-JSON value (whatever revision
      the database has since given it) yields the original bytes and height. */
  lemma BinaryRoundTrip(codec: JsonCodec, ns: Bytes, key: Bytes, revision: Bytes, v: Bytes, h: Height, newRev: Option<Bytes>)
    requires !codec.isJson(v)
    ensures var d := BuildDocument(codec, ns, key, revision, Some(v), h);
            Colon in d.fields.version && Unwrapped(codec, d.fields.(rev := newRev), d.attachments) == (v, h)
  {
    var d := BuildDocument(codec, ns, key, revision, Some(v), h);
    BuildDocumentShape(codec, ns, key, revision, Some(v), h);
    assert d.fields.version == FormatVersion(h);
    assert BinaryAttachment(d.attachments.value) == Some(v);
  }

  /** Reading back a document written for a JSON value yields the value as
      re-marshalled by the JSON library, and the original height. */
  lemma JsonRoundTrip(codec: JsonCodec, ns: Bytes, key: Bytes, revision: Bytes, v: Bytes, h: Height, newRev: Option<Bytes>)
    requires codec.isJson(v)
    ensures var d := BuildDocument(codec, ns, key, revision, Some(v), h);
            Colon in d.fields.version && Unwrapped(codec, d.fields.(rev := newRev), d.attachments) == (codec.remarshal(v), h)
  {
    var d := BuildDocument(codec, ns, key, revision, Some(v), h);
    BuildDocumentShape(codec, ns, key, revision, Some(v), h);
    assert d.fields.version == FormatVersion(h);
  }
}
