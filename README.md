# Chords recording worker and loss detector — a Dafny model

This project models two pieces of the Chords web application.

- **The recording worker.** This is `workers/indexedDBWorker.ts`. It owns the
  "ChordsRecordings" IndexedDB object store. It takes batches of device frames
  and appends them to a record keyed by `filename`. It lists the records, and it
  exports them as CSV text: one record on its own, or all of them in a ZIP
  archive. Every operation is reached through one message handler,
  `self.onmessage`.
- **The live-stream loss detector.** This is the `datastream` callback of
  `src/components/DataPass.tsx`. It hands each frame to the canvas and then
  compares the frame's counter with the previous counter plus one, modulo 256.

Files and modules:

- `wrappers.dfy` (`Wrappers`): `Option`, and `Settled`. `Settled` is how a
  promise ends: resolved, rejected, or never settled.
- `recording.dfy` (`Recording`): the stored values. A field is
  `Option<int>`, where `None` is `null`/`undefined`. An entry is a frame or a
  malformed element. A content is an array of entries or a value that is not
  an array. A record is `{ filename, content }`.
- `csv.dfy` (`Csv`): `convertToCSV`. It is built from the JavaScript pieces it
  uses: `JSON.stringify` of an integer, `join`, and `slice(0, end)`. Each piece
  has an inverse (`ParseInt`, `Split`, `ParseRow`), and lemmas show that the
  text reads back to what was written.
- `keys.dfy` (`Keys`): the lexicographic order IndexedDB keeps string keys in.
- `store.dfy` (`Store`): the object store as a key-ordered sequence of
  records. It defines `get` (`Find`), `put` (`Put`), what `writeToIndexedDB`
  does (`WriteBatch`), and the listing `getAllDataFromIndexedDB` returns.
- `export.dfy` (`Export`): the archive entries `saveAllDataAsZip` adds, and the
  outcome of `saveDataByFilename`.
- `worker.dfy` (`Worker`): the `switch` of `self.onmessage` as a function,
  `Dispatch`. It also holds the class `RecordingStore`, whose methods change the
  store in place and are proved against those functions.
- `datapass.dfy` (`DataPass`): the class `LossDetector`, with its single field
  `previousCounter`. It also has the functions that run the detector over a
  stream, and a reference definition of a gap in the counters.

Points of the code's behaviour that the model keeps:

- The loss warning carries the previous counter and the current one, and
  nothing else (src/components/DataPass.tsx:38-40).
- The counter is element 0 of the frame (src/components/DataPass.tsx:36 and
  43).
- Some requests get no reply at all (see `Dispatch`). If `push` throws inside
  the `get` callback, the write promise never settles, so the `await` at
  workers/indexedDBWorker.ts:13 never returns (lines 73-77). The same happens
  to a download whose conversion throws inside its `get` callback (line 199),
  so the `await` at line 34 never returns.
- A present number is written by `JSON.stringify`, so it is not quoted
  (workers/indexedDBWorker.ts:126).
- `saveDataByFilename` rejects a record whose content is not an array with the
  same message as a missing record (workers/indexedDBWorker.ts:194-196).

The CSV text is close to RFC 4180 but does not conform to it. Section 2 of
RFC 4180 ends every line with CRLF. The worker joins lines with a bare line
feed and adds no line break after the last row (`CsvHasNoCarriageReturn`).

## Model

| member | source | states |
|---|---|---|
| `Csv.NatText` | workers/indexedDBWorker.ts:126 | `JSON.stringify` of a non-negative integer is non-empty, all digits, with no leading zero: the only text starting with `0` is `"0"` itself, the text of zero |
| `Csv.IntText` | workers/indexedDBWorker.ts:126 | `JSON.stringify` of an integer is a leading `-` exactly when the integer is negative, then only digits, with no leading zero: the only text starting with `0` is `"0"`, the text of zero |
| `Csv.IntTextRoundTrip` | workers/indexedDBWorker.ts:126 | reading the decimal text back gives the same integer |
| `Csv.FieldText` | workers/indexedDBWorker.ts:126 | a field's text is empty exactly when the field is null/undefined, and never holds a comma, LF or CR |
| `Csv.FieldRoundTrip` | workers/indexedDBWorker.ts:126 | each field reads back from its text, with empty text as null/undefined |
| `Csv.SplitJoin` | workers/indexedDBWorker.ts:127 | cells joined by a separator they do not contain split back into the same cells |
| `Csv.KeptFields` | workers/indexedDBWorker.ts:125 | `slice(0, canvasCount + 1)` keeps a prefix of the frame, `min(len, canvasCount + 1)` long; a negative end counts from the back |
| `Csv.Join` | workers/indexedDBWorker.ts:127 | `Array.prototype.join`; its contract is `Csv.SplitJoin`: cells without the separator split back into the same cells |
| `Csv.RowLine` | workers/indexedDBWorker.ts:124-128 | one data row; its contract is `Csv.RowRoundTrip` (the row reads back into exactly the kept fields) and `Csv.RowLineClean` (no LF or CR) |
| `Csv.RowLineClean` | workers/indexedDBWorker.ts:124-128 | a data row never contains LF or CR, so it stays on one line of the export |
| `Csv.RowRoundTrip` | workers/indexedDBWorker.ts:124-128 | a data row holds exactly the kept fields in order, with null/undefined as empty cells; a frame with nothing kept gives an empty line |
| `Csv.HeaderFields` | workers/indexedDBWorker.ts:121 | the header has `canvasCount + 1` cells (one if `canvasCount` is negative): `Counter`, then `Channel1`..`ChannelN` |
| `Csv.HeaderLine` | workers/indexedDBWorker.ts:121 | the header line; its contract is `Csv.HeaderLineShape` |
| `Csv.HeaderLineShape` | workers/indexedDBWorker.ts:121 | the header line splits back into exactly the header cells and contains no LF or CR |
| `Csv.Rows` | workers/indexedDBWorker.ts:124-128 | there is one row per entry, each the row text of that frame, and the conversion throws exactly when some entry is not an array |
| `Csv.ConvertToCsv` | workers/indexedDBWorker.ts:117-132 | an empty array gives empty text, with no header; the conversion throws exactly when the content or one of its entries is not an array |
| `Csv.CsvLayout` | workers/indexedDBWorker.ts:121-131 | a non-empty export has one line more than there are frames; line 1 splits into the header cells, and line i+1 is frame i's row |
| `Csv.CsvHasNoCarriageReturn` | workers/indexedDBWorker.ts:131 | the text never contains CR: lines are joined with a bare LF, not RFC 4180's CRLF |
| `Csv.ConvertExample` | workers/indexedDBWorker.ts:117-132 | frames `[1,2,3,0]` and `[4,5,6,1]` with 3 channels give `Counter,Channel1,Channel2,Channel3\n1,2,3,0\n4,5,6,1` |
| `Store.Append` | workers/indexedDBWorker.ts:77 | `push(...batch)` keeps the old entries as a prefix and puts the batch after them; it throws on content that is not an array |
| `Store.WriteBatch` | workers/indexedDBWorker.ts:66-91 | the write fails exactly when the stored content is not an array; the rest of its contract is `Store.WriteBatchSpec` |
| `Store.WriteBatchSpec` | workers/indexedDBWorker.ts:66-91 | a write appends the batch to an existing array record, or creates one record holding the batch; it fails only on non-array content; other keys are unchanged; the store stays key-ordered and grows by one record only for a new key |
| `Store.WriteTwice` | workers/indexedDBWorker.ts:71-85 | two writes B1 then B2 to one key leave its content as old ++ B1 ++ B2 |
| `Store.Listing` | workers/indexedDBWorker.ts:101-104 | the listing has one entry per stored record; the rest of its contract is `Store.ListingSpec` |
| `Store.ListingSpec` | workers/indexedDBWorker.ts:94-113 | entry i of the listing is stored record i with id i + 1, so the listing follows `getAll`'s ascending key order; it holds each stored record's content, lists every stored key, and lists no key twice |
| `Export.ArchiveOf` | workers/indexedDBWorker.ts:155-162 | the entries `forEach` adds; its contract is `Export.ArchiveSound`, `Export.ArchiveComplete`, `Export.ArchiveOnePerRecord` and `Export.ArchiveNamesAscending` |
| `Export.ZipAll` | workers/indexedDBWorker.ts:143-165 | it always settles; it rejects with `'No data available to download.'` exactly when the store is empty, and resolves otherwise; the entries it resolves with are those of `Export.ArchiveOf` |
| `Export.DownloadOne` | workers/indexedDBWorker.ts:172-216 | it rejects with `'No data found for the given filename.'` exactly when the key is absent or holds a non-array; a resolved text is the conversion of the stored content; the rest of its contract is `Export.DownloadOneSpec` |
| `Export.ArchiveSound` | workers/indexedDBWorker.ts:155-162 | every archive entry is some record's filename with that record's CSV, and there are no more entries than records |
| `Export.ArchiveComplete` | workers/indexedDBWorker.ts:155-162 | every record whose conversion succeeds has its entry, so a throwing record does not stop the rest |
| `Export.ArchiveOnePerRecord` | workers/indexedDBWorker.ts:155-162 | when no conversion throws, entry i is record i's filename and CSV, one entry per record |
| `Export.ArchiveNamesAscending` | workers/indexedDBWorker.ts:143-162 | the entry names follow `getAll`'s key order, so no name repeats |
| `Export.DownloadOneSpec` | workers/indexedDBWorker.ts:172-216 | a download is rejected exactly when no record with that name holds an array; it resolves with the same text the archive holds under that name; it never settles only when that record's conversion throws |
| `Worker.Dispatch` | workers/indexedDBWorker.ts:4-45 | the `switch (action)`; its contract is `Worker.DispatchStore`, `Worker.DispatchReplies` and `Worker.DispatchUnanswered` |
| `Worker.DispatchStore` | workers/indexedDBWorker.ts:11-44 | only `write` changes the store, which stays key-ordered; a write is answered `{success: true}` unless `push` throws |
| `Worker.DispatchReplies` | workers/indexedDBWorker.ts:11-44 | `getAllData` gets the listing; `saveAsZip` gets the archive, or `'Failed to create ZIP file'` on an empty store; a download gets its blob or the rejection's error object; an unknown action gets `'Invalid action'` |
| `Worker.DispatchUnanswered` | workers/indexedDBWorker.ts:4-45 | a request gets no reply exactly when it is a write whose `push` throws, or a download whose conversion throws |
| `Worker.DispatchScenario` | workers/indexedDBWorker.ts:12-43 | writing `[[100,7]]` then `[[101,8]]` to `rec1` leaves `[[100,7],[101,8]]`; an unknown `delete` action is answered `'Invalid action'` and changes nothing |
| `Worker.RecordingStore.constructor` | workers/indexedDBWorker.ts:52-57 | a new store is empty and key-ordered |
| `Worker.RecordingStore.Write` | workers/indexedDBWorker.ts:66-91 | the store becomes what `WriteBatch` says and stays key-ordered; when `push` throws there is no result and nothing changes |
| `Worker.RecordingStore.SaveAllAsZip` | workers/indexedDBWorker.ts:136-170 | the `forEach` loop builds exactly `ArchiveOf` the records; an empty store is rejected with `'No data available to download.'` |
| `Worker.RecordingStore.OnMessage` | workers/indexedDBWorker.ts:4-45 | the reply and the new store are those `Dispatch` gives for the old store |
| `DataPass.JsRem` | src/components/DataPass.tsx:35 | JavaScript's `%`: for a non-negative dividend it is the mathematical remainder; for a negative one it lies in (-m, 0] |
| `DataPass.ExpectedCounter` | src/components/DataPass.tsx:35 | for a counter in 0..255 the expected counter is in 0..255 and equals (counter + 1) mod 256, so 255 is followed by 0 |
| `DataPass.Check` | src/components/DataPass.tsx:33-42 | there is no check before the first frame; after a counter, a warning comes exactly when the new counter is not the expected one; a warning after counter p carries p as the previous counter and the frame's element 0 as the current one; after an `undefined` counter every frame warns |
| `DataPass.After` | src/components/DataPass.tsx:43 | once a frame has been seen, the state is never `null` again |
| `DataPass.WarningsAreGaps` | src/components/DataPass.tsx:33-43 | over a stream of counters in 0..255, a fresh detector warns exactly once per gap, in order, with the counters on both sides of the gap |
| `DataPass.ConsecutiveCountersNoWarning` | src/components/DataPass.tsx:35-36 | counters that go up by one modulo 256 draw no warning |
| `DataPass.WraparoundNoWarning` | src/components/DataPass.tsx:35-36 | the stream 254, 255, 0, 1 draws no warning |
| `DataPass.LossDetector.constructor` | src/components/DataPass.tsx:20 | the detector starts with `previousCounter` null |
| `DataPass.LossDetector.Datastream` | src/components/DataPass.tsx:28-44 | the frame is rendered unchanged, only when a canvas is present and before any warning; the check runs either way; afterwards `previousCounter` is the frame's element 0, whether or not a loss was reported |

## Left out

- Opening the database, upgrading it and its schema version
  (workers/indexedDBWorker.ts:48-63) are not modelled. The model's store always
  exists with its `filename` index, so the "Index 'filename' does not exist."
  branch (workers/indexedDBWorker.ts:183-186) is not modelled.
- I/O failures of IndexedDB requests are not modelled: failures of open, get,
  put and getAll, and aborted transactions from quota or corruption. The model
  never reaches the catch of `getAllData`
  (workers/indexedDBWorker.ts:20-22), the "Error during file retrieval." and
  "Failed to open IndexedDB database." rejections, or the outer catch of
  `saveDataByFilename`. A failing `put` would leave a write unanswered; this is
  not modelled either.
- JSZip's `generateAsync` and `Blob` construction are foreign library calls. The
  archive is its list of `(name, text)` entries and a blob is its text. JSZip's
  handling of `/` in entry names, which makes folders, is not modelled.
- `postMessage`/`onmessage` asynchrony and the separate database connection
  that `saveAllDataAsZip` opens are not modelled. One message is handled at a
  time, synchronously, on one store.
- Messages that lack `data`, `filename` or `canvasCount` are not modelled.
  `canvasCount` is an integer. `NaN`, fractions and lengths from 2^32 up, where
  `Array.from` throws, are not modelled.
- Field values are integers or null/undefined. `JSON.stringify` of fractions,
  strings (which it quotes), booleans and objects is not modelled. A field is
  an unbounded integer, while a JavaScript number is a double. The model's
  decimal text is exact only for magnitudes up to 2^53 - 1
  (`Number.MAX_SAFE_INTEGER`). Above that, an integer may not be a
  representable value at all (2^53 + 1 is not). For one that is, the source
  writes the shortest digits that read back to the same double, padded with
  zeros: 2^64 is written `18446744073709552000`. From 10^21 up it uses
  exponent form. None of this is modelled. Device samples and counters are
  small integers.
- A content that is not an array always makes the conversion throw. In the
  source, a non-array whose `length` is 0 (an empty string) converts to empty
  text.
- An entry that is a string is treated like any non-array entry, as throwing.
  In the source, `slice` works on strings. The row would hold one cell per
  kept character, each written by `JSON.stringify` as a quoted string
  (`"a"`).
- Store.WriteBatch: appends a batch of any length. In the source,
  `existingRecord.content.push(...data)` (workers/indexedDBWorker.ts:77) passes
  the batch as call arguments. A batch beyond the engine's argument-count
  limit throws a `RangeError` inside the `get` callback, and that write goes
  unanswered, as for a non-array content. The limit depends on the engine.
  Creating a record with `[...data]` (line 82) has no such limit.
- Keys are compared character by character as Unicode scalar values.
  IndexedDB compares UTF-16 code units. The two orders differ only between
  characters above U+FFFF and characters in U+E000..U+FFFF.
- React state, hooks and props wiring in DataPass.tsx are not modelled
  (src/components/DataPass.tsx:12-27 and 45-88). Console and toast logging are
  not modelled either. A warning is an event with its two counters, not its
  text.
- DataPass frames are sequences of integers. A fractional or `NaN` counter is
  not modelled.
- JsRem: for a negative dividend, the contract only bounds the result to
  (-m, 0] and does not state its value. Counters from the device are
  non-negative.
- FAQSection.tsx and TechStack.tsx are presentational content with no logic.
  They are not part of this model.
