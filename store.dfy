/** The "ChordsRecordings" object store as values: a sequence of records
    kept in ascending key order (the order IndexedDB keeps and `getAll`
    returns), the two store requests `get` and `put`, and what
    `writeToIndexedDB` and `getAllDataFromIndexedDB` make of them. */
module Store {
  import opened Wrappers
  import opened Recording
  import opened Keys

  /** Strictly ascending filenames: the keys are unique and in key order. */
  predicate Sorted(rs: seq<Record>)
  {
    forall i, j | 0 <= i < j < |rs| :: Less(rs[i].filename, rs[j].filename)
  }

  /** `store.get(key)`: the content stored under `key`, if any. */
  function Find(rs: seq<Record>, key: string): Option<Content>
    decreases |rs|
  {
    if |rs| == 0 then None
    else if rs[0].filename == key then Some(rs[0].content)
    else Find(rs[1..], key)
  }

  /** `store.put({ filename: key, content })`: replaces the record with that
      key, or inserts a new one at its place in key order. */
  function Put(rs: seq<Record>, key: string, content: Content): seq<Record>
    decreases |rs|
  {
    if |rs| == 0 then [Record(key, content)]
    else if rs[0].filename == key then [Record(key, content)] + rs[1..]
    else if Less(key, rs[0].filename) then [Record(key, content)] + rs
    else [rs[0]] + Put(rs[1..], key, content)
  }

  /** `existingRecord.content.push(...batch)`: `None` when the stored content
      is not an array, where `push` throws. */
  function Append(content: Content, batch: seq<Entry>): (r: Option<Content>)
    ensures r.Some? <==> content.Items?
    ensures content.Items? ==>
              && r.Some? && r.value.Items?
              && |r.value.entries| == |content.entries| + |batch|
              && r.value.entries[..|content.entries|] == content.entries
              && r.value.entries[|content.entries|..] == batch
  {
    match content
    case NotAList => None
    case Items(entries) => Some(Items(entries + batch))
  }

  /** The store after `writeToIndexedDB(db, batch, key)`: the batch is
      appended to the existing record, or a record holding a copy of the
      batch is created. `None` when `push` throws inside the `get` callback:
      the transaction aborts, nothing changes and the promise never settles. */
  function WriteBatch(rs: seq<Record>, key: string, batch: seq<Entry>): (written: Option<seq<Record>>)
    ensures written.None? <==> Find(rs, key) == Some(NotAList)
  {
    match Find(rs, key)
    case None => Some(Put(rs, key, Items(batch)))
    case Some(existing) =>
      match Append(existing, batch)
      case None => None
      case Some(content) => Some(Put(rs, key, content))
  }

  /** Every record of `Put` is the new one or one that was there before. */
  lemma {:induction false} PutFrom(rs: seq<Record>, key: string, content: Content)
    ensures forall i | 0 <= i < |Put(rs, key, content)| ::
              Put(rs, key, content)[i] == Record(key, content) || Put(rs, key, content)[i] in rs
    decreases |rs|
  {
    if |rs| > 0 && rs[0].filename != key && !Less(key, rs[0].filename) {
      PutFrom(rs[1..], key, content);
    }
  }

  lemma {:induction false} PutSorted(rs: seq<Record>, key: string, content: Content)
    requires Sorted(rs)
    ensures Sorted(Put(rs, key, content))
    decreases |rs|
  {
    if |rs| == 0 || rs[0].filename == key {
    } else if Less(key, rs[0].filename) {
      var p := Put(rs, key, content);
      forall i, j | 0 <= i < j < |p| ensures Less(p[i].filename, p[j].filename) {
        if i == 0 && j > 1 {
          LessTransitive(key, rs[0].filename, rs[j - 1].filename);
        }
      }
    } else {
      var tail := Put(rs[1..], key, content);
      PutSorted(rs[1..], key, content);
      PutFrom(rs[1..], key, content);
      LessTotal(key, rs[0].filename);
      forall j | 0 <= j < |tail| ensures Less(rs[0].filename, tail[j].filename) {
        if tail[j] != Record(key, content) {
          var m :| 0 <= m < |rs[1..]| && rs[1..][m] == tail[j];
          assert rs[m + 1] == tail[j];
        }
      }
    }
  }

  /** After a put, the key holds exactly the content put. */
  lemma {:induction false} FindPutSame(rs: seq<Record>, key: string, content: Content)
    ensures Find(Put(rs, key, content), key) == Some(content)
    decreases |rs|
  {
    if |rs| > 0 && rs[0].filename != key && !Less(key, rs[0].filename) {
      FindPutSame(rs[1..], key, content);
      assert Put(rs, key, content)[1..] == Put(rs[1..], key, content);
    }
  }

  /** A put leaves every other key as it was. */
  lemma {:induction false} FindPutOther(rs: seq<Record>, key: string, content: Content, other: string)
    requires other != key
    ensures Find(Put(rs, key, content), other) == Find(rs, other)
    decreases |rs|
  {
    var p := Put(rs, key, content);
    if |rs| == 0 {
    } else if rs[0].filename == key {
      assert p[1..] == rs[1..];
    } else if Less(key, rs[0].filename) {
      assert p[1..] == rs;
    } else {
      FindPutOther(rs[1..], key, content, other);
      assert p[1..] == Put(rs[1..], key, content);
    }
  }

  /** In a sorted store no record after one with a larger key holds `key`. */
  lemma {:induction false} FindAbsentAbove(rs: seq<Record>, key: string)
    requires Sorted(rs)
    requires |rs| > 0 && Less(key, rs[0].filename)
    ensures Find(rs, key) == None
    decreases |rs|
  {
    LessIrreflexive(key);
    if |rs| > 1 {
      LessTransitive(key, rs[0].filename, rs[1].filename);
      FindAbsentAbove(rs[1..], key);
    }
  }

  /** A put adds one record when the key was absent and none otherwise. */
  lemma {:induction false} PutLength(rs: seq<Record>, key: string, content: Content)
    requires Sorted(rs)
    ensures |Put(rs, key, content)| == |rs| + (if Find(rs, key).None? then 1 else 0)
    decreases |rs|
  {
    if |rs| == 0 || rs[0].filename == key {
    } else if Less(key, rs[0].filename) {
      FindAbsentAbove(rs, key);
    } else {
      PutLength(rs[1..], key, content);
    }
  }

  /** `Find` finds the record at every position of a sorted store. */
  lemma {:induction false} FindAt(rs: seq<Record>, i: nat)
    requires Sorted(rs)
    requires i < |rs|
    ensures Find(rs, rs[i].filename) == Some(rs[i].content)
    decreases i
  {
    if i > 0 {
      LessIrreflexive(rs[i].filename);
      assert Less(rs[0].filename, rs[i].filename);
      FindAt(rs[1..], i - 1);
    }
  }

  /** Whatever `Find` returns is stored at some position. */
  lemma {:induction false} FindIn(rs: seq<Record>, key: string)
    requires Find(rs, key).Some?
    ensures exists i | 0 <= i < |rs| :: rs[i] == Record(key, Find(rs, key).value)
    decreases |rs|
  {
    if rs[0].filename != key {
      FindIn(rs[1..], key);
      var i :| 0 <= i < |rs[1..]| && rs[1..][i] == Record(key, Find(rs, key).value);
      assert rs[i + 1] == rs[1..][i];
    }
  }

  /** Writing a batch to an existing record appends it after the frames
      already there; writing to an absent key creates one record holding
      the batch; a record whose content is not an array makes the write
      fail. No other key changes, the store stays in key order, and it
      grows by exactly one record when the key was new. */
  lemma WriteBatchSpec(rs: seq<Record>, key: string, batch: seq<Entry>)
    requires Sorted(rs)
    ensures WriteBatch(rs, key, batch).None? <==> Find(rs, key) == Some(NotAList)
    ensures Find(rs, key) == None ==>
              && WriteBatch(rs, key, batch).Some?
              && Find(WriteBatch(rs, key, batch).value, key) == Some(Items(batch))
              && |WriteBatch(rs, key, batch).value| == |rs| + 1
    ensures Find(rs, key).Some? && Find(rs, key).value.Items? ==>
              && WriteBatch(rs, key, batch).Some?
              && Find(WriteBatch(rs, key, batch).value, key)
                 == Some(Items(Find(rs, key).value.entries + batch))
              && |WriteBatch(rs, key, batch).value| == |rs|
    ensures WriteBatch(rs, key, batch).Some? ==>
              && Sorted(WriteBatch(rs, key, batch).value)
              && forall other | other != key ::
                   Find(WriteBatch(rs, key, batch).value, other) == Find(rs, other)
  {
    match Find(rs, key)
    case None =>
      FindPutSame(rs, key, Items(batch));
      PutLength(rs, key, Items(batch));
      PutSorted(rs, key, Items(batch));
      forall other | other != key
        ensures Find(Put(rs, key, Items(batch)), other) == Find(rs, other)
      {
        FindPutOther(rs, key, Items(batch), other);
      }
    case Some(existing) =>
      if existing.Items? {
        var content := Items(existing.entries + batch);
        FindPutSame(rs, key, content);
        PutLength(rs, key, content);
        PutSorted(rs, key, content);
        forall other | other != key
          ensures Find(Put(rs, key, content), other) == Find(rs, other)
        {
          FindPutOther(rs, key, content, other);
        }
      }
  }

  /** Two batches written to one key end up one after the other, in the
      order written, after whatever the record already held. */
  lemma WriteTwice(rs: seq<Record>, key: string, b1: seq<Entry>, b2: seq<Entry>)
    requires Sorted(rs)
    requires Find(rs, key) != Some(NotAList)
    ensures WriteBatch(rs, key, b1).Some?
    ensures WriteBatch(WriteBatch(rs, key, b1).value, key, b2).Some?
    ensures Find(WriteBatch(WriteBatch(rs, key, b1).value, key, b2).value, key)
            == Some(Items((if Find(rs, key).None? then [] else Find(rs, key).value.entries) + b1 + b2))
  {
    WriteBatchSpec(rs, key, b1);
    var rs1 := WriteBatch(rs, key, b1).value;
    WriteBatchSpec(rs1, key, b2);
    if Find(rs, key).None? {
      assert [] + b1 == b1;
    }
  }

  /** One entry of `getAllDataFromIndexedDB`'s result: the stored object
      with a 1-based ordinal `id` added in front. */
  datatype Listed = Listed(id: int, filename: string, content: Content)

  /** `request.result.map((item, index) => ({ id: index + 1, ...item }))`. */
  function Listing(rs: seq<Record>): (all: seq<Listed>)
    ensures |all| == |rs|
  {
    seq(|rs|, i requires 0 <= i < |rs| => Listed(i + 1, rs[i].filename, rs[i].content))
  }

  /** The listing numbers the records 1..n in key order and holds every
      stored record exactly once with its stored content. */
  lemma ListingSpec(rs: seq<Record>)
    requires Sorted(rs)
    ensures forall i | 0 <= i < |rs| :: Listing(rs)[i].id == i + 1
    ensures forall i | 0 <= i < |rs| ::
              Listing(rs)[i].filename == rs[i].filename && Listing(rs)[i].content == rs[i].content
    ensures forall i, j | 0 <= i < j < |rs| :: Less(Listing(rs)[i].filename, Listing(rs)[j].filename)
    ensures forall i | 0 <= i < |rs| ::
              Find(rs, Listing(rs)[i].filename) == Some(Listing(rs)[i].content)
    ensures forall key | Find(rs, key).Some? ::
              exists i | 0 <= i < |rs| :: Listing(rs)[i].filename == key
    ensures forall i, j | 0 <= i < j < |rs| :: Listing(rs)[i].filename != Listing(rs)[j].filename
  {
    var all := Listing(rs);
    forall i | 0 <= i < |rs| ensures Find(rs, all[i].filename) == Some(all[i].content) {
      FindAt(rs, i);
    }
    forall key | Find(rs, key).Some? ensures exists i | 0 <= i < |rs| :: all[i].filename == key {
      FindIn(rs, key);
      var i :| 0 <= i < |rs| && rs[i] == Record(key, Find(rs, key).value);
      assert all[i].filename == key;
    }
    forall i, j | 0 <= i < j < |rs| ensures all[i].filename != all[j].filename {
      LessIrreflexive(rs[i].filename);
    }
  }
}
