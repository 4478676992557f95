# CouchDB state database of the Hyperledger Fabric ledger, in Dafny

This project models `statecouchdb.go`: the adapter that keeps a channel's world state in CouchDB.

- **Composite keys.** A (namespace, key) pair becomes a CouchDB document identifier `namespace 0x00 key`. A range read of a namespace becomes an identifier range whose end bound uses `0x01` when the end key is empty.
- **Versions.** A height is written into the document as the text `block:tx`. It is parsed back leniently, with the errors of `strconv.ParseUint` ignored.
- **Values.** A value becomes one of three document shapes: a tombstone for a delete, inline `data` for JSON, or a `valueBytes` octet-stream attachment. `removeDataWrapper` reads it back.
- **Cache.** The per-call `CommittedVersions` cache holds versions, revisions and values. `LoadCommittedVersions`/`LoadCommittedValues` fill it and `ClearCachedVersions` empties it. `GetState`, `GetVersion` and `GetStateMultipleKeys` consult it before the database.
- **ApplyUpdates.** It loads the revisions the cache lacks, builds one document per update, bulk-writes them, stops at the first refused document, then records the savepoint. The savepoint needs a full commit first.
- **Savepoint.** `GetLatestSavePoint` reads it back.
- **Iterators.** `kvScanner` and `queryScanner` are cursors over range-read and query results.
- **Handles.** `VersionedDBProvider.GetDBHandle` finds or creates one handle per database name.
- **Key validation.** `ValidateKey` accepts well-formed UTF-8 in the sense of section 4 of RFC 3629. This model proves it is exactly the set of encodings of Unicode scalar-value sequences.

## The CouchDB client

The CouchDB client package is not part of this model. It is replaced by the class `Store.DocStore`, which holds:

- a map from identifier to stored document (revision plus body);
- the update sequence;
- the answers of the rich-query engine;
- a `faults` record saying which calls fail;
- a `log` of the calls made, in order.

Each client call (`ReadDoc`, `BatchRetrieve`, `BatchUpdateDocuments`, `EnsureFullCommit`, `GetDatabaseInfo`, `SaveDoc`, `QueryDocuments`, `ReadDocRange`) is a method with an exact contract. A bulk write applies optimistic concurrency per document, in order. Each document is accepted only when it names the revision the database holds (none for a new document), and accepted documents stay applied even when a later one is refused.

## Spec functions

Each operation with effects is proved against a function of the old state. `CommitSpec.ApplyUpdatesSpec`, `CommitSpec.SavepointSpec` and `CommitSpec.MultiKeySpec` give the error, the new database and the exact call sequence. `VersionCache.Load` gives the cache after a loader call. The lemmas in `CommitSpec`, `VersionCache`, `Store` and `CompositeKeys` then prove the promised properties about those functions:

- the savepoint is written only after every document was accepted and the full commit succeeded;
- a commit without error makes every batch key read back as its update intended;
- a fault-free commit of a batch succeeds;
- the loaders' per-key effect on the cache;
- every record a range scan returns is a key of the namespace in range, and every such key is returned unless the query limit was reached below it.

## Literal behaviour the model keeps

Some source behaviour looks unintended, but the model keeps it as written:

- **`LoadCommittedValues`** unmarshals into a nil slice and never reads the document. Every key the bulk read reports therefore gets a nil value in the cache, and `GetStateMultipleKeys` returns a nil value for it (`CommitSpec.MultiKeyRead`).
- **`GetStateMultipleKeys`** ignores the loaders' bulk-read error: the cache then holds only negative entries (`VersionCache.RowsFor`).
- **`GetLatestSavePoint`** would read a state document stored under the savepoint identifier as height 0:0, because the unmarshal finds no block or transaction number there (`CommitSpec.SavepointOf`). A well-formed database never holds one: every state document's identifier contains the separator, and `Store.SavepointIdNotComposite` proves the savepoint identifier does not.
- **Document identifiers** pass through json.Marshal, which replaces every byte that starts no well-formed UTF-8 character with U+FFFD (`Utf8.JsonString`). A key that ValidateKey would refuse is therefore written under another identifier than the one GetState reads, and two such keys can share one document (`CommitSpec.InvalidKeysShareDocument`). Keys that ValidateKey accepts are written as built (`StateCouchDB.ValidatedKeyWrittenAsBuilt`).
- **`GetVersion`** is the subject of the finding below.

## Model

| member | source | states |
|---|---|---|
| CompositeKeys.ConstructCompositeKey | core/ledger/kvledger/txmgmt/statedb/statecouchdb/statecouchdb.go:702-707 | the identifier has length of namespace plus one plus length of key, starts with the namespace and contains the separator |
| CompositeKeys.SplitCompositeKey | core/ledger/kvledger/txmgmt/statedb/statecouchdb/statecouchdb.go:709-712 | splitting at the first separator gives a separator-free namespace, and the two parts join back to exactly the identifier |
| CompositeKeys.SplitConstruct | core/ledger/kvledger/txmgmt/statedb/statecouchdb/statecouchdb.go:702-712 | for a separator-free namespace, split undoes construct for every key, including keys containing 0x00 |
| CompositeKeys.IdOfInjective | core/ledger/kvledger/txmgmt/statedb/statecouchdb/statecouchdb.go:702-707 | distinct (namespace, key) pairs over separator-free namespaces get distinct identifiers |
| CompositeKeys.KeyOfIdOf | core/ledger/kvledger/txmgmt/statedb/statecouchdb/statecouchdb.go:539-540 | the composite key recovered from a key's identifier is that key |
| CompositeKeys.RangeEndKey | core/ledger/kvledger/txmgmt/statedb/statecouchdb/statecouchdb.go:293-296 | the end bound is the namespace followed by 0x01 when the end key is empty, else the composite end key |
| CompositeKeys.EndBoundAboveNamespace | core/ledger/kvledger/txmgmt/statedb/statecouchdb/statecouchdb.go:292-296 | every identifier of the namespace, the start bound included, sorts strictly below the whole-namespace end bound |
| CompositeKeys.OtherNamespaceOutside | core/ledger/kvledger/txmgmt/statedb/statecouchdb/statecouchdb.go:292-297 | an identifier of another separator-free namespace lies outside the scanned range |
| CompositeKeys.ScanCoversNamespace | core/ledger/kvledger/txmgmt/statedb/statecouchdb/statecouchdb.go:292-297 | (ns2, key2) lies in the scanned range iff ns2 is the namespace, key2 is not below the start key and, unless the end key is empty, below the end key |
| CompositeKeys.InRangeHasPrefix | core/ledger/kvledger/txmgmt/statedb/statecouchdb/statecouchdb.go:292-297 | every identifier in the range begins with the namespace and the separator |
| CompositeKeys.ScanResultInNamespace | core/ledger/kvledger/txmgmt/statedb/statecouchdb/statecouchdb.go:734 | every identifier a scan returns holds a separator and splits back to the scanned namespace |
| Versions.FormatUint | core/ledger/kvledger/txmgmt/statedb/statecouchdb/statecouchdb.go:585 | the decimal text is a non-empty digit string with no leading zero |
| Versions.FormatVersion | core/ledger/kvledger/txmgmt/statedb/statecouchdb/statecouchdb.go:585 | the version text always contains the colon the parser splits on |
| Versions.ParseUintDigits | core/ledger/kvledger/txmgmt/statedb/statecouchdb/statecouchdb.go:555 | a digit string parses to its value, or to 2^64-1 when it does not fit, as the ignored range error leaves it |
| Versions.ParseUint | core/ledger/kvledger/txmgmt/statedb/statecouchdb/statecouchdb.go:555-558 | strconv.ParseUint with its error ignored; what it gives for digits, non-digits and overflow is stated in ParseUintDigits, ParseUintNonNumeric, ParseUintSaturates and ParseFormatUint |
| Versions.ParseUintNonNumeric | core/ledger/kvledger/txmgmt/statedb/statecouchdb/statecouchdb.go:558 | the empty field, or a field whose first non-digit comes before the digits pass 64 bits, parses as 0 instead of failing |
| Versions.ParseUintSaturates | core/ledger/kvledger/txmgmt/statedb/statecouchdb/statecouchdb.go:555 | leading digits past 64 bits make the field 2^64-1 whatever follows |
| Versions.ParseFormatUint | core/ledger/kvledger/txmgmt/statedb/statecouchdb/statecouchdb.go:555 | the decimal text of every 64-bit value parses back to it |
| Versions.VersionRoundTrip | core/ledger/kvledger/txmgmt/statedb/statecouchdb/statecouchdb.go:550-562 | createVersionFromString of the formatted height is that height |
| Versions.CreateVersionFromString | core/ledger/kvledger/txmgmt/statedb/statecouchdb/statecouchdb.go:550-562 | block and transaction numbers from the fields before and after the first colon; VersionRoundTrip proves it inverts the version text the adapter writes |
| Documents.AddCouchDBFieldsToValue | core/ledger/kvledger/txmgmt/statedb/statecouchdb/statecouchdb.go:582-623 | `_id` and `chaincodeid` are held as json.Marshal writes them: always well-formed UTF-8, and unchanged exactly when already well-formed; the version parses back to the height; `_rev` is present iff the revision is non-empty; a tombstone has `_deleted` and no chaincode id or data; otherwise the chaincode id and the given data |
| Documents.BuildDocument | core/ledger/kvledger/txmgmt/statedb/statecouchdb/statecouchdb.go:377-408 | the document written for one update; its shape is stated in BuildDocumentShape, and BinaryRoundTrip and JsonRoundTrip prove it reads back |
| Documents.BuildDocumentShape | core/ledger/kvledger/txmgmt/statedb/statecouchdb/statecouchdb.go:385-407 | the id is the composite key as json.Marshal writes it, always holding the separator, and the composite key itself when namespace and key are well-formed UTF-8; nil value gives a tombstone with no attachments; JSON value gives inline data and no attachment; other value gives no inline data and exactly one `valueBytes` octet-stream attachment; revision and version as above |
| Documents.RemoveDataWrapper | core/ledger/kvledger/txmgmt/statedb/statecouchdb/statecouchdb.go:213-260 | with no inline data and an attachment list, the last `valueBytes` attachment (empty when none); else the re-marshalled data, JSON null when absent; the height parsed from the version |
| Documents.Unwrapped | core/ledger/kvledger/txmgmt/statedb/statecouchdb/statecouchdb.go:213-260 | the value and height removeDataWrapper returns; RemoveDataWrapper's loop is proved equal to it, and BinaryRoundTrip and JsonRoundTrip state what it gives for written documents |
| Documents.BinaryRoundTrip | core/ledger/kvledger/txmgmt/statedb/statecouchdb/statecouchdb.go:230-236 | a document written for a non-JSON value reads back as the same bytes and height, whatever revision it has since |
| Documents.JsonRoundTrip | core/ledger/kvledger/txmgmt/statedb/statecouchdb/statecouchdb.go:237-256 | a document written for a JSON value reads back as its re-marshalled text and the same height |
| Utf8.FirstCharLength | core/ledger/kvledger/txmgmt/statedb/statecouchdb/statecouchdb.go:133 | the length of the leading well-formed character is at most 4 and fits in the input |
| Utf8.Encode | core/ledger/kvledger/txmgmt/statedb/statecouchdb/statecouchdb.go:133 | a scalar value encodes to one to four bytes |
| Utf8.EncodeAllValid | core/ledger/kvledger/txmgmt/statedb/statecouchdb/statecouchdb.go:133 | the encoding of any scalar-value sequence is accepted and decodes back to that sequence |
| Utf8.DecodeValid | core/ledger/kvledger/txmgmt/statedb/statecouchdb/statecouchdb.go:133 | every accepted byte string decodes to scalar values that encode back to exactly it |
| Utf8.RejectsOverlongAndSurrogate | core/ledger/kvledger/txmgmt/statedb/statecouchdb/statecouchdb.go:133 | the overlong form C0 80 and the surrogate ED A0 80 are refused |
| Utf8.ValidIffEncoding | core/ledger/kvledger/txmgmt/statedb/statecouchdb/statecouchdb.go:133 | a byte string is accepted iff it is the encoding of some scalar-value sequence |
| StateCouchDB.ValidateKey | core/ledger/kvledger/txmgmt/statedb/statecouchdb/statecouchdb.go:132-137 | no error iff the key is the UTF-8 encoding of scalar values; otherwise the error names the key |
| StateCouchDB.ValidatedKeyWrittenAsBuilt | core/ledger/kvledger/txmgmt/statedb/statecouchdb/statecouchdb.go:132-137 | a key ValidateKey accepts, in a namespace it accepts, reaches the database under its own composite key |
| Utf8.JsonString | core/ledger/kvledger/txmgmt/statedb/statecouchdb/statecouchdb.go:619 | how json.Marshal writes a Go string: each byte that starts no well-formed character becomes U+FFFD; its properties are JsonStringOfValid, JsonStringValid and JsonStringCollides |
| Utf8.JsonStringOfValid | core/ledger/kvledger/txmgmt/statedb/statecouchdb/statecouchdb.go:619 | well-formed UTF-8 is written unchanged |
| Utf8.JsonStringValid | core/ledger/kvledger/txmgmt/statedb/statecouchdb/statecouchdb.go:619 | whatever the input, json.Marshal writes well-formed UTF-8 |
| Utf8.JsonStringCollides | core/ledger/kvledger/txmgmt/statedb/statecouchdb/statecouchdb.go:619 | the distinct ill-formed strings FF and FE are both written as EF BF BD |
| Documents.CompositeKeyValid | core/ledger/kvledger/txmgmt/statedb/statecouchdb/statecouchdb.go:702-707 | a composite key of well-formed UTF-8 namespace and key is well-formed UTF-8 |
| Store.RetrieveRows | core/ledger/kvledger/txmgmt/statedb/statecouchdb/statecouchdb.go:533 | the bulk read answers one row per requested identifier, in order, with empty revision and version for a missing document |
| Store.RetrieveRowsWellFormed | core/ledger/kvledger/txmgmt/statedb/statecouchdb/statecouchdb.go:537-542 | a row reporting a version has an identifier with a separator and a version with a colon, so the split and the parse never index out of range |
| Store.BulkApply | core/ledger/kvledger/txmgmt/statedb/statecouchdb/statecouchdb.go:418 | one response per document, in order, naming that document's identifier |
| Store.BulkApplyWellFormed | core/ledger/kvledger/txmgmt/statedb/statecouchdb/statecouchdb.go:418 | writing documents the adapter builds keeps the database well formed |
| Store.BulkApplyUntouched | core/ledger/kvledger/txmgmt/statedb/statecouchdb/statecouchdb.go:418 | identifiers no document names keep their contents |
| Store.BulkApplyLanded | core/ledger/kvledger/txmgmt/statedb/statecouchdb/statecouchdb.go:418-437 | when every response is ok and identifiers are distinct, every document has landed: tombstones removed, the others stored with their fields and attachments |
| Store.WriteOneRefused | core/ledger/kvledger/txmgmt/statedb/statecouchdb/statecouchdb.go:425 | a refused document changed nothing, named a revision other than the current one, and is answered with CouchDB's update conflict |
| Store.WriteOne | core/ledger/kvledger/txmgmt/statedb/statecouchdb/statecouchdb.go:418-427 | CouchDB's per-document write: accepted iff the document names the current revision; stated in WriteOneRefused, NewDocumentAccepted and BulkRefusalsAreConflicts |
| Store.BulkRefusalsAreConflicts | core/ledger/kvledger/txmgmt/statedb/statecouchdb/statecouchdb.go:424-427 | every response the bulk write marks not ok carries the document's identifier, CouchDB's `conflict` error and its reason |
| Store.BulkAllAccepted | core/ledger/kvledger/txmgmt/statedb/statecouchdb/statecouchdb.go:418 | distinct documents each naming the current revision are all accepted |
| Store.NewDocumentAccepted | core/ledger/kvledger/txmgmt/statedb/statecouchdb/statecouchdb.go:418 | a new document written without a revision is accepted |
| Store.DocStore.constructor | core/ledger/kvledger/txmgmt/statedb/statecouchdb/statecouchdb.go:107 | a newly created database is empty and well formed, with an empty call log |
| Store.DocStore.ReadDoc | core/ledger/kvledger/txmgmt/statedb/statecouchdb/statecouchdb.go:156 | logs the read; fails iff reads fail; else the stored document or nothing (not an error) |
| Store.DocStore.BatchRetrieve | core/ledger/kvledger/txmgmt/statedb/statecouchdb/statecouchdb.go:533 | logs the identifiers; fails iff bulk reads fail; else exactly the rows of those identifiers |
| Store.DocStore.BatchUpdateDocuments | core/ledger/kvledger/txmgmt/statedb/statecouchdb/statecouchdb.go:418 | logs the documents; on transport failure nothing changes; else the responses and new state of the in-order bulk write |
| Store.DocStore.EnsureFullCommit | core/ledger/kvledger/txmgmt/statedb/statecouchdb/statecouchdb.go:644 | logs the call; answers ok, not ok or an error as the environment decides |
| Store.DocStore.GetDatabaseInfo | core/ledger/kvledger/txmgmt/statedb/statecouchdb/statecouchdb.go:652 | logs the call; fails or answers the current update sequence |
| Store.DocStore.SaveDoc | core/ledger/kvledger/txmgmt/statedb/statecouchdb/statecouchdb.go:668 | logs the call; on failure nothing changes; else the document is stored under a new revision and the update sequence advances |
| Store.DocStore.QueryDocuments | core/ledger/kvledger/txmgmt/statedb/statecouchdb/statecouchdb.go:319 | logs the query; fails iff reads fail; else the query engine's answer, well-formed records |
| Store.DocStore.ReadDocRange | core/ledger/kvledger/txmgmt/statedb/statecouchdb/statecouchdb.go:297 | logs the call; fails iff reads fail; else the state documents in [start, end), strictly ascending, at most `limit`, missing an in-range document only when the limit was reached below it |
| VersionCache.IdsOf | core/ledger/kvledger/txmgmt/statedb/statecouchdb/statecouchdb.go:517-523 | the identifiers requested are those of the keys, in order |
| VersionCache.SeedAt | core/ledger/kvledger/txmgmt/statedb/statecouchdb/statecouchdb.go:518-531 | after the first loop every requested key holds (nil, ""), other keys are untouched, values are untouched |
| VersionCache.ApplyRowsMiss | core/ledger/kvledger/txmgmt/statedb/statecouchdb/statecouchdb.go:535-546 | rows that do not report a version for a key leave its entry alone |
| VersionCache.ApplyRowsHit | core/ledger/kvledger/txmgmt/statedb/statecouchdb/statecouchdb.go:535-546 | a row reporting a version for a key sets the parsed version and the row's revision (and a nil value in the value loader) |
| VersionCache.RowsFor | core/ledger/kvledger/txmgmt/statedb/statecouchdb/statecouchdb.go:533 | the rows the loaders see are well formed; a failed bulk read yields none, its error dropped |
| VersionCache.OnlyOwnRowHits | core/ledger/kvledger/txmgmt/statedb/statecouchdb/statecouchdb.go:539-543 | a bulk-read row updates a key's entry only when it is that key's own row |
| VersionCache.LoadAt | core/ledger/kvledger/txmgmt/statedb/statecouchdb/statecouchdb.go:511-548 | per key: unrequested keys keep their entries; requested unreported keys are (nil, ""); reported keys get the stored version and revision, and a nil value from the value loader |
| VersionCache.CommittedVersions.constructor | core/ledger/kvledger/txmgmt/statedb/statecouchdb/statecouchdb.go:56-60 | three empty maps |
| VersionCache.CommittedVersions.SeedKeys | core/ledger/kvledger/txmgmt/statedb/statecouchdb/statecouchdb.go:517-531 | returns the requested identifiers in order and leaves the cache as the seeding loop specifies |
| VersionCache.CommittedVersions.RecordRows | core/ledger/kvledger/txmgmt/statedb/statecouchdb/statecouchdb.go:492-507 | leaves the cache as the row loop specifies, for both loaders |
| Scanners.RecordValue | core/ledger/kvledger/txmgmt/statedb/statecouchdb/statecouchdb.go:737 | a record always carries a value and the version parsed from its version field |
| Scanners.QueryRecord | core/ledger/kvledger/txmgmt/statedb/statecouchdb/statecouchdb.go:767 | the key a query record carries has the record's identifier |
| Scanners.KVRecord | core/ledger/kvledger/txmgmt/statedb/statecouchdb/statecouchdb.go:734-741 | kvScanner's record: the scanner's namespace and the key after the separator; ScannersAgree and RangeScanSound state its properties |
| Scanners.ScannersAgree | core/ledger/kvledger/txmgmt/statedb/statecouchdb/statecouchdb.go:734 | for a record in the scanner's namespace, kvScanner and queryScanner produce the same key and value |
| Scanners.KVScanner.constructor | core/ledger/kvledger/txmgmt/statedb/statecouchdb/statecouchdb.go:720-722 | cursor -1 over the given results, nothing returned yet |
| Scanners.KVScanner.Next | core/ledger/kvledger/txmgmt/statedb/statecouchdb/statecouchdb.go:724-742 | advances the cursor; returns the decoded record under the scanner's namespace while results remain, nil ever after; the records returned so far are the decoded prefix, in order |
| Scanners.QueryScanner.constructor | core/ledger/kvledger/txmgmt/statedb/statecouchdb/statecouchdb.go:753-755 | cursor -1 over the given results, nothing returned yet |
| Scanners.QueryScanner.Next | core/ledger/kvledger/txmgmt/statedb/statecouchdb/statecouchdb.go:757-775 | as kvScanner, with namespace and key both split from the identifier |
| CommitSpec.StoredValue | core/ledger/kvledger/txmgmt/statedb/statecouchdb/statecouchdb.go:156-167 | a value is found iff a state document is stored; its version is the one parsed from the document |
| CommitSpec.StateView | core/ledger/kvledger/txmgmt/statedb/statecouchdb/statecouchdb.go:140-168 | what GetState answers: the cached pair on a hit in both maps, else the stored document; GetState is proved against it, and LandedReadsBack and CommitMakesBatchReadable state what it gives after a commit |
| CommitSpec.KeysIn | core/ledger/kvledger/txmgmt/statedb/statecouchdb/statecouchdb.go:265-268 | one composite key per requested key, in order |
| CommitSpec.MultiKeyView | core/ledger/kvledger/txmgmt/statedb/statecouchdb/statecouchdb.go:272-280 | same length and order as the keys; each entry is what GetState answers for that key |
| CommitSpec.MultiKeyRead | core/ledger/kvledger/txmgmt/statedb/statecouchdb/statecouchdb.go:497-504 | after the value loader, a key the bulk read reports comes back with its stored version and a nil value; any other key is read from the database |
| CommitSpec.StoredVersion | core/ledger/kvledger/txmgmt/statedb/statecouchdb/statecouchdb.go:185-206 | a version is found iff a state document is stored |
| CommitSpec.VersionAsWritten | core/ledger/kvledger/txmgmt/statedb/statecouchdb/statecouchdb.go:177-183 | what GetVersion answers as written; VersionMissIgnoresDatabase exhibits an input on which it misses the stored version |
| CommitSpec.SavepointOf | core/ledger/kvledger/txmgmt/statedb/statecouchdb/statecouchdb.go:678-700 | the height GetLatestSavePoint reads; CommitRecordsHeight and SavepointHolds prove a commit leaves its height there |
| CommitSpec.StoredVersionMatchesState | core/ledger/kvledger/txmgmt/statedb/statecouchdb/statecouchdb.go:171-211 | on a version-cache miss, the stored version is exactly the version GetState reports |
| CommitSpec.VersionMissIgnoresDatabase | core/ledger/kvledger/txmgmt/statedb/statecouchdb/statecouchdb.go:177-183 | with an empty cache and a stored document at height h, the source's answer is nil while the stored version is h |
| CommitSpec.MissingKeys | core/ledger/kvledger/txmgmt/statedb/statecouchdb/statecouchdb.go:343-359 | exactly the batch keys absent from the revision map |
| CommitSpec.BatchDocuments | core/ledger/kvledger/txmgmt/statedb/statecouchdb/statecouchdb.go:369-414 | exactly one document per update, in batch order, built with the cached revision or "" |
| CommitSpec.BatchDocumentsShape | core/ledger/kvledger/txmgmt/statedb/statecouchdb/statecouchdb.go:377-408 | each document lives under its update's identifier as json.Marshal writes it (the identifier itself for well-formed UTF-8 keys), names the cached revision iff non-empty, is a tombstone iff the value is nil, and is a valid write |
| CommitSpec.FirstRefusedAt | core/ledger/kvledger/txmgmt/statedb/statecouchdb/statecouchdb.go:424-436 | the first response that is not ok is the one the error reports |
| CommitSpec.RefusedCommitIsConflict | core/ledger/kvledger/txmgmt/statedb/statecouchdb/statecouchdb.go:424-434 | a commit stopped by a refused document fails with one of the sent documents' identifiers and CouchDB's update-conflict error and reason |
| CommitSpec.CommitDocumentsCases | core/ledger/kvledger/txmgmt/statedb/statecouchdb/statecouchdb.go:416-447 | no documents means savepoint only; a transport error stops before any savepoint; a refused document stops with its identifier; otherwise the savepoint follows the write |
| CommitSpec.SavepointSaves | core/ledger/kvledger/txmgmt/statedb/statecouchdb/statecouchdb.go:640-675 | recordSavepoint sends the savepoint iff the full commit succeeded and the database info was read |
| CommitSpec.CommitDocumentsSaves | core/ledger/kvledger/txmgmt/statedb/statecouchdb/statecouchdb.go:416-447 | the savepoint is sent iff full commit and info succeed and the batch was empty or fully accepted |
| CommitSpec.SavepointHolds | core/ledger/kvledger/txmgmt/statedb/statecouchdb/statecouchdb.go:657-668 | a recorded savepoint holds the height, and no other document changes |
| CommitSpec.CommitDocumentsHeight | core/ledger/kvledger/txmgmt/statedb/statecouchdb/statecouchdb.go:439-447 | a commit of documents without error leaves the height in the savepoint |
| CommitSpec.LoadCallsOnlyRead | core/ledger/kvledger/txmgmt/statedb/statecouchdb/statecouchdb.go:362-366 | the revision load makes only bulk reads, so any other call is made by ApplyUpdates iff the commit of the documents makes it |
| CommitSpec.ApplyUpdatesSteps | core/ledger/kvledger/txmgmt/statedb/statecouchdb/statecouchdb.go:329-448 | ApplyUpdates is the revision load followed by the commit of the documents built, every one a valid write |
| CommitSpec.FullCommitGuardsSavepoint | core/ledger/kvledger/txmgmt/statedb/statecouchdb/statecouchdb.go:644-648 | without a successful full commit, ApplyUpdates fails and never saves the savepoint |
| CommitSpec.SavepointOnlyAfterAllWritten | core/ledger/kvledger/txmgmt/statedb/statecouchdb/statecouchdb.go:416-447 | the savepoint is saved only if the batch was empty or fully accepted; a refused document fails the call with its identifier, error and reason, and no savepoint |
| CommitSpec.CommitRecordsHeight | core/ledger/kvledger/txmgmt/statedb/statecouchdb/statecouchdb.go:439-447 | ApplyUpdates without error leaves the height as the latest savepoint |
| CommitSpec.DocumentIdsDistinct | core/ledger/kvledger/txmgmt/statedb/statecouchdb/statecouchdb.go:377-380 | a batch of distinct keys with well-formed UTF-8 namespaces and keys is sent as documents with distinct identifiers |
| CommitSpec.InvalidKeysShareDocument | core/ledger/kvledger/txmgmt/statedb/statecouchdb/statecouchdb.go:619 | two distinct one-byte keys whose byte starts no character are sent under one identifier, namespace 00 EF BF BD, which is neither key's own |
| CommitSpec.LandedReadsBack | core/ledger/kvledger/txmgmt/statedb/statecouchdb/statecouchdb.go:156-167 | a landed document reads back as its update intended, under the identifier the database received: nothing for a delete, the bytes or the re-marshalled JSON, and the height |
| CommitSpec.CommitDocumentsLanded | core/ledger/kvledger/txmgmt/statedb/statecouchdb/statecouchdb.go:416-447 | a commit without error has landed every document and keeps the database well formed |
| CommitSpec.CommitMakesBatchReadable | core/ledger/kvledger/txmgmt/statedb/statecouchdb/statecouchdb.go:329-448 | after ApplyUpdates without error, every batch key with a well-formed UTF-8 namespace and key reads back as its update intended |
| CommitSpec.LoadedRevisionIsCurrent | core/ledger/kvledger/txmgmt/statedb/statecouchdb/statecouchdb.go:349-392 | a well-formed UTF-8 key whose revision was missing is sent with the revision the database holds, none for a new key |
| CommitSpec.FaultFreeCommitSucceeds | core/ledger/kvledger/txmgmt/statedb/statecouchdb/statecouchdb.go:329-448 | with no failures, no cached revisions for the batch keys, and well-formed UTF-8 namespaces and keys, ApplyUpdates succeeds |
| StateCouchDB.VersionedDB.constructor | core/ledger/kvledger/txmgmt/statedb/statecouchdb/statecouchdb.go:110-117 | the handle has the database, the name and an empty cache of its own |
| StateCouchDB.VersionedDB.ClearCachedVersions | core/ledger/kvledger/txmgmt/statedb/statecouchdb/statecouchdb.go:565-573 | a new cache with all three maps empty |
| StateCouchDB.VersionedDB.LoadCommittedVersions | core/ledger/kvledger/txmgmt/statedb/statecouchdb/statecouchdb.go:511-548 | one bulk read of the keys' identifiers without documents; the cache becomes the loader's specified result |
| StateCouchDB.VersionedDB.LoadCommittedValues | core/ledger/kvledger/txmgmt/statedb/statecouchdb/statecouchdb.go:467-508 | one bulk read with documents; the cache becomes the value loader's specified result |
| StateCouchDB.VersionedDB.GetState | core/ledger/kvledger/txmgmt/statedb/statecouchdb/statecouchdb.go:140-168 | a hit in both value and version maps answers from the cache without I/O; otherwise one read, whose failure is returned, and else the stored value |
| StateCouchDB.VersionedDB.GetVersion | core/ledger/kvledger/txmgmt/statedb/statecouchdb/statecouchdb.go:171-211 | as written: the cached version on a hit; after a miss, one read and a nil version whatever is stored |
| StateCouchDB.VersionedDB.GetVersionCorrected | core/ledger/kvledger/txmgmt/statedb/statecouchdb/statecouchdb.go:171-211 | the cached version on a hit; after a miss one read whose failure is returned, and else the stored document's version |
| StateCouchDB.VersionedDB.GetStateMultipleKeys | core/ledger/kvledger/txmgmt/statedb/statecouchdb/statecouchdb.go:263-282 | loads the values, then answers every key as GetState would, in order, or the first failure; the cache is empty afterwards |
| StateCouchDB.VersionedDB.GetEach | core/ledger/kvledger/txmgmt/statedb/statecouchdb/statecouchdb.go:272-280 | GetState for every key in order, stopping at the first failure |
| StateCouchDB.VersionedDB.GetStateRangeScanIterator | core/ledger/kvledger/txmgmt/statedb/statecouchdb/statecouchdb.go:287-305 | one range read with the composite start key, the end bound and the query limit; fails iff it fails; else a fresh kvScanner at cursor -1 over the range answer |
| StateCouchDB.RangeScanSound | core/ledger/kvledger/txmgmt/statedb/statecouchdb/statecouchdb.go:724-742 | every record of a range scan is in the namespace, not below the start key, below the end key unless that is empty, and both scanners read it alike |
| StateCouchDB.RangeScanComplete | core/ledger/kvledger/txmgmt/statedb/statecouchdb/statecouchdb.go:292-297 | a state document of the namespace with its key in range is returned, unless the query limit was reached below it |
| StateCouchDB.VersionedDB.ExecuteQuery | core/ledger/kvledger/txmgmt/statedb/statecouchdb/statecouchdb.go:308-326 | a rejected query fails without I/O; else one query whose failure is returned, and else a fresh queryScanner over the answer |
| StateCouchDB.VersionedDB.RecordSavepoint | core/ledger/kvledger/txmgmt/statedb/statecouchdb/statecouchdb.go:640-675 | error, new database and calls are those of the savepoint specification |
| StateCouchDB.VersionedDB.GetLatestSavePoint | core/ledger/kvledger/txmgmt/statedb/statecouchdb/statecouchdb.go:678-700 | one read of the savepoint document; its failure, nothing when absent, else the recorded height |
| StateCouchDB.VersionedDB.ApplyUpdates | core/ledger/kvledger/txmgmt/statedb/statecouchdb/statecouchdb.go:329-448 | error, new database and exact calls are those of the ApplyUpdates specification, and the cache is empty on every way out |
| StateCouchDB.VersionedDB.LoadMissingRevisions | core/ledger/kvledger/txmgmt/statedb/statecouchdb/statecouchdb.go:362-366 | the bulk load runs only when some batch key lacks a cached revision, and loads exactly those keys |
| StateCouchDB.VersionedDB.MissingRevisions | core/ledger/kvledger/txmgmt/statedb/statecouchdb/statecouchdb.go:343-359 | exactly the batch keys absent from the revision map, in batch order |
| StateCouchDB.VersionedDB.BuildDocuments | core/ledger/kvledger/txmgmt/statedb/statecouchdb/statecouchdb.go:369-414 | exactly the specified documents, one per update |
| StateCouchDB.VersionedDB.CommitBatch | core/ledger/kvledger/txmgmt/statedb/statecouchdb/statecouchdb.go:416-447 | error, new database and calls are those of committing the documents |
| StateCouchDB.VersionedDB.CheckResponses | core/ledger/kvledger/txmgmt/statedb/statecouchdb/statecouchdb.go:424-436 | no error iff every response is ok; else the error carries the first refused response's identifier, CouchDB's error and its reason |
| Provider.CouchInstance.CreateCouchDatabase | core/ledger/kvledger/txmgmt/statedb/statecouchdb/statecouchdb.go:107 | fails or opens the named database, creating it empty when the server lacks it |
| Provider.NewVersionedDB | core/ledger/kvledger/txmgmt/statedb/statecouchdb/statecouchdb.go:105-118 | a creation error is returned; else a fresh handle on that database with a fresh empty cache |
| Provider.VersionedDBProvider.constructor | core/ledger/kvledger/txmgmt/statedb/statecouchdb/statecouchdb.go:72 | no handles yet |
| Provider.VersionedDBProvider.GetDBHandle | core/ledger/kvledger/txmgmt/statedb/statecouchdb/statecouchdb.go:76-90 | a known name returns the same handle with nothing changed; a new name returns a fresh handle remembered under it, or the creation error with no handle remembered; a returned handle sits on the database the instance holds under that name; every handle is filed under its own name and sits on that name's database |

## Left out

- The CouchDB client package is not part of this model: HTTP, retries, authentication, and the JSON text of documents and savepoints. Documents are datatypes, and `DocStore` stands in for the database. Which calls fail is an input (`Faults`), not derived from contents.
- `couchdb.IsJSON` and json re-marshalling of inline data are function-valued parameters (`JsonCodec`). Re-marshalling is not byte-preserving, so the JSON round trip is stated through that function.
- The query limit (`ledgerconfig.GetQueryLimit`) and `ApplyQueryWrapper` are parameters (`Environment`). A wrapper error is modelled as `QueryRejected`.
- `NewVersionedDBProvider` reads the configuration and calls `CreateCouchInstance`; the model takes the instance as a constructor argument.
- The mutex and concurrent use of handles are left out. The model is sequential.
- `openCounts`, logging, `printCompositeKeys`, the `Open`/`Close` no-ops, provider `Close` and scanner `Close` are left out. They do nothing that affects state.
- The iteration order of the Go maps in `UpdateBatch` is not modelled. The batch is a sequence, and the model fixes one order.
- The unused `querySkip` is always 0 and is not modelled.
- `GetLatestSavePoint`'s nil-`JSONValue` check and unmarshalling error are not modelled: stored documents always have a body.
- `recordSavepoint`'s json.Marshal error is not modelled: it cannot fail for that struct.
- The savepoint's update sequence is the decimal text of a counter, not CouchDB's opaque sequence string.
- StateCouchDB.VersionedDB.GetVersion: requires that a cache miss does not meet a failing read. The source then unmarshals a nil document, which panics instead of returning an error.
- CompositeKeys.SplitCompositeKey: requires a separator in the identifier. The source indexes the second half of the split, which panics when there is none. Every identifier it splits comes from a range read or the bulk read of a key.
- Versions.CreateVersionFromString: requires a colon in the version text, for the same reason. The adapter writes one into every version.
- Documents.AddCouchDBFieldsToValue: the revision is kept as given rather than passed through `JsonString`. CouchDB issues revisions in ASCII, which json.Marshal writes unchanged.
- CommitSpec.DocumentIdsDistinct: holds only for well-formed UTF-8 namespaces and keys, the ones ValidateKey accepts. For other keys it is false in the source (`CommitSpec.InvalidKeysShareDocument`).
- CommitSpec.CommitMakesBatchReadable: holds only for well-formed UTF-8 namespaces and keys. Another key is written under its `JsonString` identifier, which GetState does not read.
- CommitSpec.LoadedRevisionIsCurrent: holds only for a well-formed UTF-8 namespace and key, for the same reason: the revision is loaded for the raw identifier.
- CommitSpec.FaultFreeCommitSucceeds: holds only for well-formed UTF-8 namespaces and keys. Two ill-formed keys can collide, and then the second write is refused.
- Documents.RemoveDataWrapper: requires a colon in the version field, for the same reason.
- Store.DocStore.BatchUpdateDocuments: models only CouchDB's per-document revision check, so every refusal is an update conflict (error `conflict`, reason `Document update conflict.`). Refusals by validation functions or permissions, and attachment stubs, are not modelled.

## Findings

| source | as written | input that shows it | evidently intended | confidence | as-written member | corrected member |
|---|---|---|---|---|---|---|
| core/ledger/kvledger/txmgmt/statedb/statecouchdb/statecouchdb.go:181-183 | after a version-cache miss, a successful ReadDoc returns a nil version, and a failed one goes on to unmarshal a nil document | empty cache; the database holds key "b" of namespace "a" at height h; GetVersion("a", "b") answers nil instead of h | return the read error, and otherwise the stored document's version (nil when there is no document) | high, not executed | StateCouchDB.VersionedDB.GetVersion, CommitSpec.VersionMissIgnoresDatabase | StateCouchDB.VersionedDB.GetVersionCorrected, CommitSpec.StoredVersionMatchesState |
