/** The recording worker: its message handler `self.onmessage` and the
    object store it owns. Posting a reply is modelled as returning it;
    `None` is a request left without any reply. */
module Worker {
  import opened Wrappers
  import opened Recording
  import opened Csv
  import opened Store
  import opened Export

  /** The fields of `event.data` the handler reads. */
  datatype Message = Message(action: string, data: seq<Entry>, filename: string, canvasCount: int)

  /** An `error` payload: a plain string, or a caught `Error` object. */
  datatype ErrorValue = Text(text: string) | ErrorObject(message: string)

  /** The payloads the handler posts. */
  datatype Reply =
    | WriteReply(success: bool)
    | AllDataReply(allData: seq<Listed>)
    | ZipReply(zipBlob: seq<ZipEntry>)
    | BlobReply(blob: string)
    | ErrorReply(error: ErrorValue)

  /** The reply to one message, and the store after it. */
  datatype Step = Step(reply: Option<Reply>, records: seq<Record>)

  const InvalidAction := "Invalid action"
  const ZipFailure := "Failed to create ZIP file"

  /** One run of `self.onmessage` on a store: the `switch (action)`. */
  function Dispatch(rs: seq<Record>, msg: Message): Step
  {
    if msg.action == "write" then
      match WriteBatch(rs, msg.filename, msg.data)
      case None => Step(None, rs)
      case Some(written) => Step(Some(WriteReply(true)), written)
    else if msg.action == "getAllData" then
      Step(Some(AllDataReply(Listing(rs))), rs)
    else if msg.action == "saveAsZip" then
      match ZipAll(rs, msg.canvasCount)
      case Resolved(entries) => Step(Some(ZipReply(entries)), rs)
      case _ => Step(Some(ErrorReply(Text(ZipFailure))), rs)
    else if msg.action == "saveDataByFilename" then
      match DownloadOne(rs, msg.filename, msg.canvasCount)
      case Resolved(csv) => Step(Some(BlobReply(csv)), rs)
      case Rejected(reason) => Step(Some(ErrorReply(ErrorObject(reason))), rs)
      case Pending => Step(None, rs)
    else
      Step(Some(ErrorReply(Text(InvalidAction))), rs)
  }

  predicate KnownAction(action: string)
  {
    action == "write" || action == "getAllData" || action == "saveAsZip" || action == "saveDataByFilename"
  }

  /** Only `write` changes the store, and the store stays in key order; a
      write is answered `{ success: true }` unless `push` throws. */
  lemma DispatchStore(rs: seq<Record>, msg: Message)
    requires Sorted(rs)
    ensures Sorted(Dispatch(rs, msg).records)
    ensures msg.action != "write" ==> Dispatch(rs, msg).records == rs
    ensures msg.action == "write" ==>
              Dispatch(rs, msg).reply == (if Find(rs, msg.filename) == Some(NotAList) then None
                                          else Some(WriteReply(true)))
  {
    if msg.action == "write" {
      WriteBatchSpec(rs, msg.filename, msg.data);
    }
  }

  /** Each action gets one reply of its own kind; an unknown action gets
      `{ error: 'Invalid action' }`. */
  lemma DispatchReplies(rs: seq<Record>, msg: Message)
    requires Sorted(rs)
    ensures !KnownAction(msg.action) ==>
              Dispatch(rs, msg).reply == Some(ErrorReply(Text(InvalidAction)))
    ensures msg.action == "getAllData" ==>
              Dispatch(rs, msg).reply == Some(AllDataReply(Listing(rs)))
    ensures msg.action == "saveAsZip" ==>
              Dispatch(rs, msg).reply == (if |rs| == 0 then Some(ErrorReply(Text(ZipFailure)))
                                          else Some(ZipReply(ArchiveOf(rs, msg.canvasCount))))
    ensures msg.action == "saveDataByFilename" ==>
              match DownloadOne(rs, msg.filename, msg.canvasCount)
              case Resolved(csv) => Dispatch(rs, msg).reply == Some(BlobReply(csv))
              case Rejected(reason) => Dispatch(rs, msg).reply == Some(ErrorReply(ErrorObject(reason)))
              case Pending => Dispatch(rs, msg).reply == None
  {
    var step := Dispatch(rs, msg);
    if msg.action == "getAllData" {
      assert step.reply == Some(AllDataReply(Listing(rs)));
    } else if msg.action == "saveAsZip" {
      assert step.reply == match ZipAll(rs, msg.canvasCount)
                           case Resolved(entries) => Some(ZipReply(entries))
                           case _ => Some(ErrorReply(Text(ZipFailure)));
    } else if msg.action == "saveDataByFilename" {
      assert step.reply == match DownloadOne(rs, msg.filename, msg.canvasCount)
                           case Resolved(csv) => Some(BlobReply(csv))
                           case Rejected(reason) => Some(ErrorReply(ErrorObject(reason)))
                           case Pending => None;
    } else if msg.action != "write" {
      assert step.reply == Some(ErrorReply(Text(InvalidAction)));
    }
  }

  /** The only requests left unanswered are a write whose `push` throws
      and a download whose conversion throws. */
  lemma DispatchUnanswered(rs: seq<Record>, msg: Message)
    requires Sorted(rs)
    ensures Dispatch(rs, msg).reply.None? <==>
              || (msg.action == "write" && Find(rs, msg.filename) == Some(NotAList))
              || (msg.action == "saveDataByFilename"
                  && DownloadOne(rs, msg.filename, msg.canvasCount).Pending?)
  {
    if msg.action == "write" {
      WriteBatchSpec(rs, msg.filename, msg.data);
    }
  }

  /** Two writes to "rec1" on an empty store, then a read of it, and an
      unknown "delete" action that changes nothing. */
  lemma DispatchScenario()
    ensures var s1 := Dispatch([], Message("write", [Frame([Some(100), Some(7)])], "rec1", 0));
            var s2 := Dispatch(s1.records, Message("write", [Frame([Some(101), Some(8)])], "rec1", 0));
            && s1.reply == Some(WriteReply(true)) && s2.reply == Some(WriteReply(true))
            && Find(s2.records, "rec1") == Some(Items([Frame([Some(100), Some(7)]), Frame([Some(101), Some(8)])]))
            && Dispatch(s2.records, Message("delete", [], "", 0))
               == Step(Some(ErrorReply(Text(InvalidAction))), s2.records)
  {
    var b1, b2 := [Frame([Some(100), Some(7)])], [Frame([Some(101), Some(8)])];
    WriteTwice([], "rec1", b1, b2);
    WriteBatchSpec([], "rec1", b1);
    WriteBatchSpec(WriteBatch([], "rec1", b1).value, "rec1", b2);
    assert [] + b1 + b2 == [Frame([Some(100), Some(7)]), Frame([Some(101), Some(8)])];
  }

  /** The "ChordsRecordings" object store as the worker sees it. */
  class RecordingStore {
    var records: seq<Record>

    ghost predicate Valid()
      reads this
    {
      Sorted(records)
    }

    /** A freshly created, empty store. */
    constructor ()
      ensures Valid() && records == []
    {
      records := [];
    }

    /** `writeToIndexedDB(db, data, filename)`: `Some(true)` once the record
        is put, `None` when `push` throws on a stored content that is not an
        array (the transaction aborts and the promise never settles). */
    method Write(data: seq<Entry>, filename: string) returns (success: Option<bool>)
      requires Valid()
      modifies this
      ensures Valid()
      ensures success.Some? <==> WriteBatch(old(records), filename, data).Some?
      ensures success.Some? ==> success.value && records == WriteBatch(old(records), filename, data).value
      ensures success.None? ==> records == old(records)
    {
      WriteBatchSpec(records, filename, data);
      var existing := Find(records, filename);
      if existing.Some? {
        if existing.value.NotAList? {
          return None;
        }
        records := Put(records, filename, Items(existing.value.entries + data));
      } else {
        records := Put(records, filename, Items(data));
      }
      success := Some(true);
    }

    /** `saveAllDataAsZip(canvasCount)`: rejects on an empty store; otherwise
        adds one entry per record in `getAll` order, skipping a record whose
        conversion throws. */
    method SaveAllAsZip(canvasCount: int) returns (outcome: Settled<seq<ZipEntry>>)
      ensures outcome == ZipAll(records, canvasCount)
    {
      var allData := records;
      if |allData| == 0 {
        return Rejected(NoDataMessage);
      }
      var zip: seq<ZipEntry> := [];
      for i := 0 to |allData|
        invariant zip == ArchiveOf(allData[..i], canvasCount)
      {
        assert allData[..i + 1][..i] == allData[..i];
        var csv := ConvertToCsv(allData[i].content, canvasCount);
        if csv.Some? {
          zip := zip + [ZipEntry(allData[i].filename, csv.value)];
        }
      }
      assert allData[..|allData|] == allData;
      return Resolved(zip);
    }

    /** `self.onmessage`: answers one message and updates the store as
        `Dispatch` says. */
    method OnMessage(msg: Message) returns (reply: Option<Reply>)
      requires Valid()
      modifies this
      ensures Valid()
      ensures Step(reply, records) == Dispatch(old(records), msg)
    {
      if msg.action == "write" {
        var success := Write(msg.data, msg.filename);
        reply := if success.Some? then Some(WriteReply(success.value)) else None;
      } else if msg.action == "getAllData" {
        reply := Some(AllDataReply(Listing(records)));
      } else if msg.action == "saveAsZip" {
        var zipped := SaveAllAsZip(msg.canvasCount);
        reply := if zipped.Resolved? then Some(ZipReply(zipped.value))
                 else Some(ErrorReply(Text(ZipFailure)));
      } else if msg.action == "saveDataByFilename" {
        var blob := DownloadOne(records, msg.filename, msg.canvasCount);
        reply := match blob
                 case Resolved(csv) => Some(BlobReply(csv))
                 case Rejected(reason) => Some(ErrorReply(ErrorObject(reason)))
                 case Pending => None;
      } else {
        reply := Some(ErrorReply(Text(InvalidAction)));
      }
    }
  }
}
