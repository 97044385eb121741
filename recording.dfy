/** The values the recording worker stores: frames, record contents and
    records of the "ChordsRecordings" object store. */
module Recording {
  import opened Wrappers

  /** One field of a frame: an integer sample, or `null`/`undefined`. */
  type Field = Option<int>

  /** One element of a record's `content` array. Frames come from the
      device as arrays of numbers; anything else that ends up in the array
      (a number, `null`, a plain object) is `Malformed`, and the CSV
      conversion throws on it. */
  datatype Entry = Frame(fields: seq<Field>) | Malformed

  /** A record's `content`: an array of entries, or a value that is not an
      array at all (which `Array.isArray` rejects and `push` throws on). */
  datatype Content = Items(entries: seq<Entry>) | NotAList

  /** A stored object `{ filename, content }`; `filename` is the key path. */
  datatype Record = Record(filename: string, content: Content)
}
