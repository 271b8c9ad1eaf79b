/** The already-deserialized property-list value tree that the bookmark
    extractor consumes. Only the variants the extractor distinguishes are
    kept; every other scalar kind (string, integer, real, boolean, date, uid)
    is collapsed into `Other`, because the extractor only ever skips them. */
module Plist {

  type Byte = bv8

  /** A dictionary keeps its entries in insertion order, so it is a sequence
      of key/value pairs rather than a map. */
  datatype PlistValue =
    | Dict(entries: seq<(string, PlistValue)>)
    | Array(items: seq<PlistValue>)
    | Data(bytes: seq<Byte>)
    | Other
}
