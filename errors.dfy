/** The errors the state database adapter returns to its caller. Go composes
    them as strings; here each kind is a constructor carrying what the
    message names. */
module Errors {
  import opened ByteStrings

  datatype Error =
    | StoreError                      // a transport failure reported by the CouchDB client
    | DocumentNotSaved(id: Bytes, error: string, reason: string)  // a bulk-write response that is not ok
    | FullCommitFailed                // "Failed to perform full commit"
    | InvalidKey(key: Bytes)          // "Key should be a valid utf8 string"
    | QueryRejected                   // the query wrapper refused the query
}
