/** The free-text side of TimeSeriesCassandraDao: the blob store (BlobData),
    the inverted index (BlobDataIndex) and the search paths over them.

    An index row is keyed by (source id, data name, term); its columns map a
    timestamp to the row key of the blob holding the indexed text. Like every
    column family of the store it is sorted by timestamp, so entries that arrive
    out of order read back in ascending time. */
module FreeTextIndex {
  import opened Dto
  import opened Columns
  import opened StringIndexer

  /** Row key of an index row. */
  datatype IndexKey = IndexKey(sourceId: string, dataName: string, term: string)

  type IndexRow = seq<(int, BlobKey)>

  type Index = map<IndexKey, IndexRow>

  /** The blob store: row key to stored text. */
  type Blobs = map<BlobKey, string>

  /** An index entry names a blob the store does not hold. */
  datatype SearchError = CorruptIndex(timestamp: int, blobRowKey: BlobKey)

  function IndexRowAt(index: Index, k: IndexKey): IndexRow
  {
    if k in index then index[k] else []
  }

  function KeyOfEntry(e: BlobIndex): IndexKey
  {
    IndexKey(e.sourceId, e.dataName, e.term)
  }

  /** Index invariant: every index row is sorted by timestamp. */
  ghost predicate IndexWellFormed(index: Index)
  {
    forall k :: k in index ==> StrictlyIncreasing(index[k])
  }

  /** The blob the index row `k` names at time `t`, if any. */
  ghost function EntryAt(index: Index, k: IndexKey, t: int): Option<BlobKey>
  {
    Lookup(ColumnsOf(IndexRowAt(index, k)), t)
  }

  // ---------------------------------------------------------------------------
  // Writing index entries.
  // ---------------------------------------------------------------------------

  /** Writes one index entry: the column `timestamp -> blob key` of the row of
      its (source, data name, term). The index stays sorted; that one column
      now names the entry's blob and every other column is unchanged. */
  function IndexPut(index: Index, e: BlobIndex): (r: Index)
    ensures IndexWellFormed(index) ==> IndexWellFormed(r)
    ensures IndexWellFormed(index) ==>
      forall k, t :: EntryAt(r, k, t) ==
        (if k == KeyOfEntry(e) && t == e.timestamp then Some(e.blobRowKey) else EntryAt(index, k, t))
  {
    var k := KeyOfEntry(e);
    var r := index[k := Insert(IndexRowAt(index, k), e.timestamp, e.blobRowKey)];
    IndexPutStep(index, e, r);
    r
  }

  lemma IndexPutStep(index: Index, e: BlobIndex, r: Index)
    requires r == index[KeyOfEntry(e) := Insert(IndexRowAt(index, KeyOfEntry(e)), e.timestamp, e.blobRowKey)]
    ensures IndexWellFormed(index) ==> IndexWellFormed(r)
    ensures IndexWellFormed(index) ==>
      forall k, t :: EntryAt(r, k, t) ==
        (if k == KeyOfEntry(e) && t == e.timestamp then Some(e.blobRowKey) else EntryAt(index, k, t))
  {
    if IndexWellFormed(index) {
      var k := KeyOfEntry(e);
      assert ColumnsOf(IndexRowAt(r, k)) == ColumnsOf(IndexRowAt(index, k))[e.timestamp := e.blobRowKey];
    }
  }

  /** batch_insert_indexes: the entries written one after the other. */
  function IndexAll(index: Index, es: seq<BlobIndex>): (r: Index)
    ensures IndexWellFormed(index) ==> IndexWellFormed(r)
  {
    if es == [] then index else IndexPut(IndexAll(index, es[..|es| - 1]), es[|es| - 1])
  }

  /** The blob key of the last entry of `es` for row `k` at time `t`. */
  function LastEntry(es: seq<BlobIndex>, k: IndexKey, t: int): Option<BlobKey>
  {
    if es == [] then None
    else if KeyOfEntry(es[|es| - 1]) == k && es[|es| - 1].timestamp == t then Some(es[|es| - 1].blobRowKey)
    else LastEntry(es[..|es| - 1], k, t)
  }

  /** After a batch of entries, each index column names the blob of the last
      entry written to it, or what it named before if no entry was. */
  lemma {:induction false} IndexAllView(index: Index, es: seq<BlobIndex>, k: IndexKey, t: int)
    requires IndexWellFormed(index)
    ensures EntryAt(IndexAll(index, es), k, t) ==
      if LastEntry(es, k, t).Some? then LastEntry(es, k, t) else EntryAt(index, k, t)
  {
    if es != [] {
      IndexAllView(index, es[..|es| - 1], k, t);
    }
  }

  // ---------------------------------------------------------------------------
  // Indexing documents.
  // ---------------------------------------------------------------------------

  /** Document `d` is indexed under row `k` at time `t`: same series, its own
      timestamp, and the term is one of its phrases. */
  ghost predicate DocHit(d: TimestampedData, k: IndexKey, t: int)
  {
    && d.sourceId == k.sourceId && d.dataName == k.dataName && d.timestamp == t
    && k.term in BuildSubstrings(StripAndLower(d.dataValue), IndexDepth)
  }

  /** Entries that share source, data name, timestamp and blob write that blob
      exactly into the rows of their terms. */
  lemma {:induction false} SameDocumentEntries(es: seq<BlobIndex>, src: string, name: string, ts: int, b: BlobKey, k: IndexKey, t: int)
    requires forall i :: 0 <= i < |es| ==>
      es[i].sourceId == src && es[i].dataName == name && es[i].timestamp == ts && es[i].blobRowKey == b
    ensures LastEntry(es, k, t) ==
      if k.sourceId == src && k.dataName == name && t == ts && (exists i :: 0 <= i < |es| && es[i].term == k.term)
      then Some(b) else None
  {
    if es != [] {
      var init := es[..|es| - 1];
      SameDocumentEntries(init, src, name, ts, b, k, t);
      if k.sourceId == src && k.dataName == name && t == ts && (exists i :: 0 <= i < |es| && es[i].term == k.term) {
        var i :| 0 <= i < |es| && es[i].term == k.term;
        if i < |es| - 1 {
          assert init[i] == es[i];
        }
      } else if exists i :: 0 <= i < |init| && init[i].term == k.term {
        var i :| 0 <= i < |init| && init[i].term == k.term;
        assert es[i] == init[i];
      }
    }
  }

  /** The entries built for one document write its blob key exactly at its own
      timestamp in the rows of its phrases, and nowhere else. */
  lemma DocumentEntries(d: TimestampedData, b: BlobKey, k: IndexKey, t: int)
    ensures LastEntry(BuildIndexes(d, b), k, t) == if DocHit(d, k, t) then Some(b) else None
  {
    SameDocumentEntries(BuildIndexes(d, b), d.sourceId, d.dataName, d.timestamp, b, k, t);
  }

  /** Each document (with the blob key it was stored under) indexed in turn. */
  function IndexDocs(index: Index, docs: seq<(TimestampedData, BlobKey)>): (r: Index)
    ensures IndexWellFormed(index) ==> IndexWellFormed(r)
  {
    if docs == [] then index
    else IndexAll(IndexDocs(index, docs[..|docs| - 1]), BuildIndexes(docs[|docs| - 1].0, docs[|docs| - 1].1))
  }

  /** The blob key of the last document indexed under row `k` at time `t`. */
  ghost function LastDocHit(docs: seq<(TimestampedData, BlobKey)>, k: IndexKey, t: int): (r: Option<BlobKey>)
    ensures r.Some? ==> exists i :: 0 <= i < |docs| && DocHit(docs[i].0, k, t) && docs[i].1 == r.value
    ensures r.None? ==> forall i :: 0 <= i < |docs| ==> !DocHit(docs[i].0, k, t)
  {
    if docs == [] then None
    else if DocHit(docs[|docs| - 1].0, k, t) then Some(docs[|docs| - 1].1)
    else
      var r := LastDocHit(docs[..|docs| - 1], k, t);
      assert forall i :: 0 <= i < |docs| - 1 ==> docs[..|docs| - 1][i] == docs[i];
      r
  }

  /** After indexing documents, each index column names the blob of the last
      document whose phrases include the row's term at that time, or what it
      named before. */
  lemma {:induction false} IndexDocsView(index: Index, docs: seq<(TimestampedData, BlobKey)>, k: IndexKey, t: int)
    requires IndexWellFormed(index)
    ensures EntryAt(IndexDocs(index, docs), k, t) ==
      if LastDocHit(docs, k, t).Some? then LastDocHit(docs, k, t) else EntryAt(index, k, t)
  {
    if docs != [] {
      var d := docs[|docs| - 1];
      IndexDocsView(index, docs[..|docs| - 1], k, t);
      IndexAllView(IndexDocs(index, docs[..|docs| - 1]), BuildIndexes(d.0, d.1), k, t);
      DocumentEntries(d.0, d.1, k, t);
    }
  }

  // ---------------------------------------------------------------------------
  // Search.
  // ---------------------------------------------------------------------------

  /** Resolves the entries of an index row to (timestamp, text) hits, in row
      order. Fails on the first entry whose blob is missing. */
  function Resolve(blobs: Blobs, row: IndexRow): (r: Result<seq<Point>, SearchError>)
    ensures r.Success? <==> forall i :: 0 <= i < |row| ==> row[i].1 in blobs
    ensures r.Success? ==>
      && |r.value| == |row|
      && forall i :: 0 <= i < |row| ==> r.value[i] == (row[i].0, blobs[row[i].1])
    ensures r.Failure? ==>
      exists i :: 0 <= i < |row| && row[i].1 !in blobs && r.error == CorruptIndex(row[i].0, row[i].1)
        && forall j :: 0 <= j < i ==> row[j].1 in blobs
  {
    if row == [] then Success([])
    else if row[0].1 !in blobs then Failure(CorruptIndex(row[0].0, row[0].1))
    else
      match Resolve(blobs, row[1..])
      case Failure(e) =>
        assert forall j :: 1 <= j < |row| ==> row[j] == row[1..][j - 1];
        Failure(e)
      case Success(rest) => Success([(row[0].0, blobs[row[0].1])] + rest)
  }

  /** get_blobs_by_free_text_index: the query is normalized like indexed text
      and the whole normalized query is the term looked up. */
  function Search(index: Index, blobs: Blobs, sourceId: string, dataName: string, query: string): Result<seq<Point>, SearchError>
  {
    Resolve(blobs, IndexRowAt(index, IndexKey(sourceId, dataName, StripAndLower(query))))
  }

  /** Search hits come back in strictly ascending timestamp order, whatever the
      order the entries were written in. */
  lemma SearchAscending(index: Index, blobs: Blobs, sourceId: string, dataName: string, query: string)
    requires IndexWellFormed(index)
    requires Search(index, blobs, sourceId, dataName, query).Success?
    ensures StrictlyIncreasing(Search(index, blobs, sourceId, dataName, query).value)
  {
    var row := IndexRowAt(index, IndexKey(sourceId, dataName, StripAndLower(query)));
    var hits := Search(index, blobs, sourceId, dataName, query).value;
    forall i, j | 0 <= i < j < |hits| ensures hits[i].0 < hits[j].0 {
      assert hits[i].0 == row[i].0 && hits[j].0 == row[j].0;
    }
  }

  /** A query finds document `d`: its normalized form is one of the phrases
      indexed for d. */
  ghost predicate Matches(d: TimestampedData, query: string)
  {
    StripAndLower(query) in BuildSubstrings(StripAndLower(d.dataValue), IndexDepth)
  }

  /** The same, in terms of words: a query matches a document exactly when its
      lower-cased words, one to IndexDepth of them, occur as a contiguous run
      of the document's lower-cased words. */
  lemma MatchesByWords(d: TimestampedData, query: string)
    ensures Matches(d, query) <==>
      && 1 <= |Words(LowerText(query))| <= IndexDepth
      && IsSegment(Words(LowerText(query)), Words(LowerText(d.dataValue)))
  {
    StripAndLowerSpec(query);
    StripAndLowerSpec(d.dataValue);
    PhraseMatch(StripAndLower(query), StripAndLower(d.dataValue), IndexDepth);
  }

  ghost predicate InSeries(d: TimestampedData, sourceId: string, dataName: string)
  {
    d.sourceId == sourceId && d.dataName == dataName
  }

  /** The blob of every indexed document holds the document's text. */
  ghost predicate BlobsHold(blobs: Blobs, docs: seq<(TimestampedData, BlobKey)>)
  {
    forall i :: 0 <= i < |docs| ==> docs[i].1 in blobs && blobs[docs[i].1] == docs[i].0.dataValue
  }

  /** Indexing documents (in any order) whose blobs hold their texts, and then
      searching, finds exactly the documents of the series that the query
      matches, in strictly ascending timestamp order, each with its text. */
  lemma SearchAfterIndexing(index: Index, blobs: Blobs, docs: seq<(TimestampedData, BlobKey)>,
                            sourceId: string, dataName: string, query: string)
    requires IndexWellFormed(index)
    requires IndexRowAt(index, IndexKey(sourceId, dataName, StripAndLower(query))) == []
    requires BlobsHold(blobs, docs)
    requires forall i, j :: 0 <= i < |docs| && 0 <= j < |docs| && i != j
               && InSeries(docs[i].0, sourceId, dataName) && InSeries(docs[j].0, sourceId, dataName)
               ==> docs[i].0.timestamp != docs[j].0.timestamp
    ensures var r := Search(IndexDocs(index, docs), blobs, sourceId, dataName, query);
      && r.Success?
      && StrictlyIncreasing(r.value)
      && (forall i :: 0 <= i < |docs| && InSeries(docs[i].0, sourceId, dataName) ==>
            ((docs[i].0.timestamp, docs[i].0.dataValue) in r.value <==> Matches(docs[i].0, query)))
      && (forall p :: p in r.value ==>
            exists i :: 0 <= i < |docs| && InSeries(docs[i].0, sourceId, dataName) && Matches(docs[i].0, query)
              && p == (docs[i].0.timestamp, docs[i].0.dataValue))
  {
    var after := IndexDocs(index, docs);
    var k := IndexKey(sourceId, dataName, StripAndLower(query));
    var row := IndexRowAt(after, k);
    forall j | 0 <= j < |row| ensures row[j].1 in blobs {
      var i := RowEntryDoc(index, docs, k, row, j);
    }
    var r := Search(after, blobs, sourceId, dataName, query);
    assert r.Success?;
    SearchAscending(after, blobs, sourceId, dataName, query);
    forall i | 0 <= i < |docs| && InSeries(docs[i].0, sourceId, dataName)
      ensures (docs[i].0.timestamp, docs[i].0.dataValue) in r.value <==> Matches(docs[i].0, query)
    {
      var d := docs[i].0;
      assert forall i' :: 0 <= i' < |docs| && DocHit(docs[i'].0, k, d.timestamp) ==> i' == i;
      if Matches(d, query) {
        var j := HitDocInRow(index, docs, k, row, i);
        assert r.value[j] == (d.timestamp, d.dataValue);
      }
      if (d.timestamp, d.dataValue) in r.value {
        var j :| 0 <= j < |r.value| && r.value[j] == (d.timestamp, d.dataValue);
        var i' := RowEntryDoc(index, docs, k, row, j);
      }
    }
    forall p | p in r.value
      ensures (exists i :: (0 <= i < |docs| && InSeries(docs[i].0, sourceId, dataName) && Matches(docs[i].0, query)
        && p == (docs[i].0.timestamp, docs[i].0.dataValue)))
    {
      var j :| 0 <= j < |r.value| && r.value[j] == p;
      var i := RowEntryDoc(index, docs, k, row, j);
      assert p == (docs[i].0.timestamp, docs[i].0.dataValue);
    }
  }

  /** Every column of an index row that was empty before indexing was written
      by a document indexed under that row at that time: returns that document. */
  lemma RowEntryDoc(index: Index, docs: seq<(TimestampedData, BlobKey)>, k: IndexKey, row: IndexRow, j: int)
    returns (i: int)
    requires IndexWellFormed(index) && IndexRowAt(index, k) == []
    requires row == IndexRowAt(IndexDocs(index, docs), k) && 0 <= j < |row|
    ensures 0 <= i < |docs| && DocHit(docs[i].0, k, row[j].0) && docs[i].1 == row[j].1
  {
    assert StrictlyIncreasing(row);
    ColumnsOfSpec(row);
    IndexDocsView(index, docs, k, row[j].0);
    assert EntryAt(IndexDocs(index, docs), k, row[j].0) == Some(row[j].1);
    i :| 0 <= i < |docs| && DocHit(docs[i].0, k, row[j].0) && docs[i].1 == row[j].1;
  }

  /** A document that is the only one indexed under row `k` at its timestamp
      has its blob key in that row at its timestamp: returns the position. */
  lemma HitDocInRow(index: Index, docs: seq<(TimestampedData, BlobKey)>, k: IndexKey, row: IndexRow, i: int)
    returns (j: int)
    requires IndexWellFormed(index) && IndexRowAt(index, k) == []
    requires row == IndexRowAt(IndexDocs(index, docs), k)
    requires 0 <= i < |docs| && DocHit(docs[i].0, k, docs[i].0.timestamp)
    requires forall i' :: 0 <= i' < |docs| && DocHit(docs[i'].0, k, docs[i].0.timestamp) ==> i' == i
    ensures 0 <= j < |row| && row[j] == (docs[i].0.timestamp, docs[i].1)
  {
    var t := docs[i].0.timestamp;
    assert StrictlyIncreasing(row);
    ColumnsOfSpec(row);
    IndexDocsView(index, docs, k, t);
    assert t in ColumnsOf(row) && ColumnsOf(row)[t] == docs[i].1;
    j :| 0 <= j < |row| && row[j].0 == t;
  }

  // ---------------------------------------------------------------------------
  // Search over several data names.
  // ---------------------------------------------------------------------------

  /** Timestamps never decrease along `s`. */
  ghost predicate Ascending(s: seq<Point>)
  {
    forall i, j :: 0 <= i < j < |s| ==> s[i].0 <= s[j].0
  }

  /** Stable two-way merge by timestamp: on equal timestamps the hits of `a`
      come first. */
  function Merge(a: seq<Point>, b: seq<Point>): (r: seq<Point>)
    ensures multiset(r) == multiset(a) + multiset(b)
    decreases |a| + |b|
  {
    if a == [] then b
    else if b == [] then a
    else if b[0].0 < a[0].0 then
      assert b == [b[0]] + b[1..];
      [b[0]] + Merge(a, b[1..])
    else
      assert a == [a[0]] + a[1..];
      [a[0]] + Merge(a[1..], b)
  }

  /** Merging two ascending hit lists gives an ascending list. */
  lemma {:induction false} MergeAscending(a: seq<Point>, b: seq<Point>)
    requires Ascending(a) && Ascending(b)
    ensures Ascending(Merge(a, b))
    decreases |a| + |b|
  {
    if a != [] && b != [] {
      if b[0].0 < a[0].0 {
        TailAscending(b);
        MergeAscending(a, b[1..]);
        MergeHead(b[0], Merge(a, b[1..]), b, a);
      } else {
        TailAscending(a);
        MergeAscending(a[1..], b);
        MergeHead(a[0], Merge(a[1..], b), a, b);
      }
    }
  }

  lemma TailAscending(s: seq<Point>)
    requires Ascending(s) && s != []
    ensures Ascending(s[1..])
  {
    forall i, j | 0 <= i < j < |s| - 1 ensures s[1..][i].0 <= s[1..][j].0 {
      assert s[1..][i] == s[i + 1] && s[1..][j] == s[j + 1];
    }
  }

  /** Putting the head of `x` in front of the merge of x's tail with `y` keeps
      the result ascending when that head is no later than y's head. */
  lemma MergeHead(h: Point, rest: seq<Point>, x: seq<Point>, y: seq<Point>)
    requires x != [] && y != [] && h == x[0] && h.0 <= y[0].0
    requires multiset(rest) == multiset(x[1..]) + multiset(y) || multiset(rest) == multiset(y) + multiset(x[1..])
    requires Ascending(x) && Ascending(y) && Ascending(rest)
    ensures Ascending([h] + rest)
  {
    var s := [h] + rest;
    forall j | 0 <= j < |rest| ensures h.0 <= rest[j].0 {
      assert rest[j] in multiset(rest);
      if rest[j] in multiset(x[1..]) {
        var m :| 0 <= m < |x[1..]| && x[1..][m] == rest[j];
        assert x[m + 1] == rest[j];
      } else {
        var m :| 0 <= m < |y| && y[m] == rest[j];
      }
    }
    forall i, j | 0 <= i < j < |s| ensures s[i].0 <= s[j].0 {
      if i > 0 {
        assert s[i] == rest[i - 1] && s[j] == rest[j - 1];
      } else {
        assert s[j] == rest[j - 1];
      }
    }
  }

  /** All hits of the per-name searches, counted with multiplicity. */
  ghost function AllHits(index: Index, blobs: Blobs, sourceId: string, names: seq<string>, query: string): multiset<Point>
  {
    if names == [] then multiset{}
    else
      var hits := Search(index, blobs, sourceId, names[|names| - 1], query);
      AllHits(index, blobs, sourceId, names[..|names| - 1], query) + (if hits.Success? then multiset(hits.value) else multiset{})
  }

  /** get_blobs_multi_data_by_free_text_index: one search per data name, in
      the order given, merged into the hits gathered so far. The first failing
      search fails the whole call. */
  function MultiSearch(index: Index, blobs: Blobs, sourceId: string, names: seq<string>, query: string): Result<seq<Point>, SearchError>
  {
    if names == [] then Success([])
    else
      match MultiSearch(index, blobs, sourceId, names[..|names| - 1], query)
      case Failure(e) => Failure(e)
      case Success(acc) =>
        match Search(index, blobs, sourceId, names[|names| - 1], query)
        case Failure(e) => Failure(e)
        case Success(hits) => Success(Merge(acc, hits))
  }

  /** The merged search succeeds exactly when every per-name search does. */
  lemma {:induction false} MultiSearchSucceeds(index: Index, blobs: Blobs, sourceId: string, names: seq<string>, query: string)
    ensures MultiSearch(index, blobs, sourceId, names, query).Success? <==>
      forall n :: 0 <= n < |names| ==> Search(index, blobs, sourceId, names[n], query).Success?
  {
    if names != [] {
      var init := names[..|names| - 1];
      MultiSearchSucceeds(index, blobs, sourceId, init, query);
      assert forall n :: 0 <= n < |init| ==> init[n] == names[n];
      var acc := MultiSearch(index, blobs, sourceId, init, query);
      if acc.Failure? {
        var n :| 0 <= n < |init| && Search(index, blobs, sourceId, init[n], query).Failure?;
        assert Search(index, blobs, sourceId, names[n], query).Failure?;
      } else {
        forall n | 0 <= n < |names| - 1 ensures Search(index, blobs, sourceId, names[n], query).Success? {
          assert init[n] == names[n];
        }
      }
    }
  }

  /** A successful merged search returns all the per-name hits, with their
      multiplicity, in ascending timestamp order. */
  lemma {:induction false} MultiSearchHits(index: Index, blobs: Blobs, sourceId: string, names: seq<string>, query: string)
    requires IndexWellFormed(index)
    requires MultiSearch(index, blobs, sourceId, names, query).Success?
    ensures Ascending(MultiSearch(index, blobs, sourceId, names, query).value)
    ensures multiset(MultiSearch(index, blobs, sourceId, names, query).value) == AllHits(index, blobs, sourceId, names, query)
  {
    if names != [] {
      var init := names[..|names| - 1];
      var last := names[|names| - 1];
      var acc := MultiSearch(index, blobs, sourceId, init, query);
      var hits := Search(index, blobs, sourceId, last, query);
      assert acc.Success? && hits.Success?;
      MultiSearchHits(index, blobs, sourceId, init, query);
      SearchAscending(index, blobs, sourceId, last, query);
      MergeAscending(acc.value, hits.value);
      assert MultiSearch(index, blobs, sourceId, names, query) == Success(Merge(acc.value, hits.value));
    }
  }
}
