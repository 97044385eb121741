/** What the two export operations of the worker produce from the store:
    the entries `saveAllDataAsZip` puts in the archive and the text
    `saveDataByFilename` puts in its blob. Compression and `Blob`
    construction are not modelled: an archive is its list of named
    entries, a blob its text. */
module Export {
  import opened Wrappers
  import opened Recording
  import opened Keys
  import opened Csv
  import opened Store

  /** One `zip.file(name, text)` call. */
  datatype ZipEntry = ZipEntry(name: string, text: string)

  const NoDataMessage := "No data available to download."
  const NoRecordMessage := "No data found for the given filename."

  /** The entries `allData.forEach` adds, in `getAll` order: one per record
      whose conversion does not throw; a record whose conversion throws is
      skipped and the rest still go in. */
  function ArchiveOf(rs: seq<Record>, canvasCount: int): seq<ZipEntry>
    decreases |rs|
  {
    if |rs| == 0 then []
    else
      var last := rs[|rs| - 1];
      ArchiveOf(rs[..|rs| - 1], canvasCount) +
        match ConvertToCsv(last.content, canvasCount)
        case None => []
        case Some(csv) => [ZipEntry(last.filename, csv)]
  }

  /** The outcome of `saveAllDataAsZip(canvasCount)`: it rejects on an empty
      store and otherwise resolves with the archive's entries. */
  function ZipAll(rs: seq<Record>, canvasCount: int): (outcome: Settled<seq<ZipEntry>>)
    ensures !outcome.Pending?
    ensures outcome.Rejected? <==> |rs| == 0
    ensures outcome.Rejected? ==> outcome.reason == NoDataMessage
  {
    if |rs| == 0 then Rejected(NoDataMessage) else Resolved(ArchiveOf(rs, canvasCount))
  }

  /** The outcome of `saveDataByFilename(filename, canvasCount)`: rejected
      when no record has that key or its content is not an array; pending
      when the conversion throws inside the `get` callback; otherwise the
      record's CSV text. */
  function DownloadOne(rs: seq<Record>, filename: string, canvasCount: int): (outcome: Settled<string>)
    ensures outcome.Rejected? <==> Find(rs, filename).None? || Find(rs, filename) == Some(NotAList)
    ensures outcome.Rejected? ==> outcome.reason == NoRecordMessage
    ensures outcome.Resolved? ==>
              ConvertToCsv(Find(rs, filename).value, canvasCount) == Some(outcome.value)
  {
    match Find(rs, filename)
    case None => Rejected(NoRecordMessage)
    case Some(NotAList) => Rejected(NoRecordMessage)
    case Some(content) =>
      match ConvertToCsv(content, canvasCount)
      case None => Pending
      case Some(csv) => Resolved(csv)
  }

  /** Every archive entry is a record's filename with that record's CSV. */
  lemma {:induction false} ArchiveSound(rs: seq<Record>, canvasCount: int)
    ensures |ArchiveOf(rs, canvasCount)| <= |rs|
    ensures forall e | e in ArchiveOf(rs, canvasCount) ::
              exists i | 0 <= i < |rs| ::
                rs[i].filename == e.name && ConvertToCsv(rs[i].content, canvasCount) == Some(e.text)
    decreases |rs|
  {
    if |rs| > 0 {
      var init := rs[..|rs| - 1];
      var a0 := ArchiveOf(init, canvasCount);
      ArchiveSound(init, canvasCount);
      forall e | e in ArchiveOf(rs, canvasCount)
        ensures exists i | 0 <= i < |rs| ::
                  rs[i].filename == e.name && ConvertToCsv(rs[i].content, canvasCount) == Some(e.text)
      {
        if e in a0 {
          var i :| 0 <= i < |init| && init[i].filename == e.name
                   && ConvertToCsv(init[i].content, canvasCount) == Some(e.text);
          assert rs[i] == init[i];
        }
      }
    }
  }

  /** Every record whose conversion succeeds has its entry in the archive. */
  lemma {:induction false} ArchiveComplete(rs: seq<Record>, canvasCount: int)
    ensures forall i | 0 <= i < |rs| && ConvertToCsv(rs[i].content, canvasCount).Some? ::
              ZipEntry(rs[i].filename, ConvertToCsv(rs[i].content, canvasCount).value)
                in ArchiveOf(rs, canvasCount)
    decreases |rs|
  {
    if |rs| > 0 {
      var init := rs[..|rs| - 1];
      ArchiveComplete(init, canvasCount);
      forall i | 0 <= i < |rs| && ConvertToCsv(rs[i].content, canvasCount).Some?
        ensures ZipEntry(rs[i].filename, ConvertToCsv(rs[i].content, canvasCount).value)
                  in ArchiveOf(rs, canvasCount)
      {
        if i < |init| {
          assert init[i] == rs[i];
        }
      }
    }
  }

  /** When no conversion throws there is exactly one entry per record, in
      store order, named after it and holding its CSV. */
  lemma {:induction false} ArchiveOnePerRecord(rs: seq<Record>, canvasCount: int)
    requires forall i | 0 <= i < |rs| :: ConvertToCsv(rs[i].content, canvasCount).Some?
    ensures |ArchiveOf(rs, canvasCount)| == |rs|
    ensures forall i | 0 <= i < |rs| ::
              ArchiveOf(rs, canvasCount)[i]
                == ZipEntry(rs[i].filename, ConvertToCsv(rs[i].content, canvasCount).value)
    decreases |rs|
  {
    if |rs| > 0 {
      var init, last := rs[..|rs| - 1], rs[|rs| - 1];
      assert forall i | 0 <= i < |init| :: init[i] == rs[i];
      ArchiveOnePerRecord(init, canvasCount);
      var a0 := ArchiveOf(init, canvasCount);
      var entry := ZipEntry(last.filename, ConvertToCsv(last.content, canvasCount).value);
      assert ArchiveOf(rs, canvasCount) == a0 + [entry];
    }
  }

  /** In a sorted store the entry names are ascending, so no name repeats. */
  lemma {:induction false} ArchiveNamesAscending(rs: seq<Record>, canvasCount: int)
    requires Sorted(rs)
    ensures forall i, j | 0 <= i < j < |ArchiveOf(rs, canvasCount)| ::
              Less(ArchiveOf(rs, canvasCount)[i].name, ArchiveOf(rs, canvasCount)[j].name)
    decreases |rs|
  {
    if |rs| > 0 {
      var init := rs[..|rs| - 1];
      var a0, a := ArchiveOf(init, canvasCount), ArchiveOf(rs, canvasCount);
      ArchiveNamesAscending(init, canvasCount);
      ArchiveSound(init, canvasCount);
      forall i, j | 0 <= i < j < |a| ensures Less(a[i].name, a[j].name) {
        if j >= |a0| {
          assert a[i] in a0;
          var k :| 0 <= k < |init| && init[k].filename == a[i].name
                   && ConvertToCsv(init[k].content, canvasCount) == Some(a[i].text);
          assert rs[k] == init[k];
        }
      }
    }
  }

  /** Downloading one record gives exactly the text the archive holds under
      its name; it is rejected exactly when no record with that name holds
      an array, and never settles when that record's conversion throws. */
  lemma DownloadOneSpec(rs: seq<Record>, filename: string, canvasCount: int)
    requires Sorted(rs)
    ensures DownloadOne(rs, filename, canvasCount).Rejected? <==>
              !exists i | 0 <= i < |rs| :: rs[i].filename == filename && rs[i].content.Items?
    ensures forall text ::
              DownloadOne(rs, filename, canvasCount) == Resolved(text) <==>
              ZipEntry(filename, text) in ArchiveOf(rs, canvasCount)
    ensures DownloadOne(rs, filename, canvasCount).Pending? ==>
              exists i | 0 <= i < |rs| ::
                rs[i].filename == filename && ConvertToCsv(rs[i].content, canvasCount).None?
  {
    ArchiveSound(rs, canvasCount);
    ArchiveComplete(rs, canvasCount);
    var found := Find(rs, filename);
    if found.Some? {
      FindIn(rs, filename);
    }
    forall i | 0 <= i < |rs| && rs[i].filename == filename
      ensures found == Some(rs[i].content)
    {
      FindAt(rs, i);
    }
    forall text | ZipEntry(filename, text) in ArchiveOf(rs, canvasCount)
      ensures DownloadOne(rs, filename, canvasCount) == Resolved(text)
    {
      var i :| 0 <= i < |rs| && rs[i].filename == filename
               && ConvertToCsv(rs[i].content, canvasCount) == Some(text);
      FindAt(rs, i);
    }
  }
}
