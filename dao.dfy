/** TimeSeriesCassandraDao: the data-access object the application talks to.
    Its state is the content of the three column families it writes
    (HourlyTimestampedData, BlobData, BlobDataIndex) and the counter from
    which fresh blob row keys are drawn. */
module Dao {
  import opened Dto
  import opened Columns
  import opened TimeSeries
  import opened StringIndexer
  import opened FreeTextIndex

  class TimeSeriesCassandraDao {
    /** HourlyTimestampedData: hour rows of every series. */
    var hourly: Store
    /** BlobData: stored texts by blob row key. */
    var blobData: Blobs
    /** BlobDataIndex: index rows by (source id, data name, term). */
    var blobIndex: Index
    /** The next blob row key to hand out. */
    var nextBlobKey: nat

    /** Rows are sorted and hold only their own hour; every stored blob key was
        handed out before, so the next one is fresh. */
    ghost predicate Valid()
      reads this
    {
      && WellFormed(hourly)
      && IndexWellFormed(blobIndex)
      && forall k :: k in blobData ==> k < nextBlobKey
    }

    /** A DAO over an empty keyspace. */
    constructor ()
      ensures Valid()
      ensures hourly == map[] && blobData == map[] && blobIndex == map[] && nextBlobKey == 0
    {
      hourly := map[];
      blobData := map[];
      blobIndex := map[];
      nextBlobKey := 0;
    }

    /** insert_timestamped_data: writes one data point. */
    method InsertTimestampedData(dto: TimestampedData)
      requires Valid()
      modifies this
      ensures Valid()
      ensures hourly == Put(old(hourly), dto)
      ensures blobData == old(blobData) && blobIndex == old(blobIndex) && nextBlobKey == old(nextBlobKey)
    {
      hourly := Put(hourly, dto);
    }

    /** batch_insert_timestamped_data: writes the data points in list order,
        which leaves the store exactly as writing them one by one does. */
    method BatchInsertTimestampedData(dtos: seq<TimestampedData>)
      requires Valid()
      modifies this
      ensures Valid()
      ensures hourly == PutAll(old(hourly), dtos)
      ensures blobData == old(blobData) && blobIndex == old(blobIndex) && nextBlobKey == old(nextBlobKey)
    {
      var i := 0;
      while i < |dtos|
        invariant 0 <= i <= |dtos|
        invariant Valid()
        invariant hourly == PutAll(old(hourly), dtos[..i])
        invariant blobData == old(blobData) && blobIndex == old(blobIndex) && nextBlobKey == old(nextBlobKey)
      {
        assert dtos[..i + 1][..i] == dtos[..i];
        hourly := Put(hourly, dtos[i]);
        i := i + 1;
      }
      assert dtos[..i] == dtos;
    }

    /** insert_blob_data: stores the text under a fresh blob row key and
        returns that key. The data point is also written into its hour row,
        so a range query over its time sees it. */
    method InsertBlobData(dto: TimestampedData) returns (key: BlobKey)
      requires Valid()
      modifies this
      ensures Valid()
      ensures key == old(nextBlobKey) && key !in old(blobData)
      ensures blobData == old(blobData)[key := dto.dataValue] && nextBlobKey == old(nextBlobKey) + 1
      ensures hourly == Put(old(hourly), dto) && blobIndex == old(blobIndex)
    {
      key := nextBlobKey;
      blobData := blobData[key := dto.dataValue];
      nextBlobKey := nextBlobKey + 1;
      hourly := Put(hourly, dto);
    }

    /** batch_insert_indexes: writes caller-supplied index entries in list
        order; the terms are taken as given. */
    method BatchInsertIndexes(entries: seq<BlobIndex>)
      requires Valid()
      modifies this
      ensures Valid()
      ensures blobIndex == IndexAll(old(blobIndex), entries)
      ensures hourly == old(hourly) && blobData == old(blobData) && nextBlobKey == old(nextBlobKey)
    {
      var i := 0;
      while i < |entries|
        invariant 0 <= i <= |entries|
        invariant Valid()
        invariant blobIndex == IndexAll(old(blobIndex), entries[..i])
        invariant hourly == old(hourly) && blobData == old(blobData) && nextBlobKey == old(nextBlobKey)
      {
        assert entries[..i + 1][..i] == entries[..i];
        blobIndex := IndexPut(blobIndex, entries[i]);
        i := i + 1;
      }
      assert entries[..i] == entries;
    }

    /** insert_indexable_text_as_blob_data_and_insert_index: stores the text
        as a blob, then writes one index entry per phrase of the text. */
    method InsertIndexableTextAsBlobDataAndInsertIndex(dto: TimestampedData)
      requires Valid()
      modifies this
      ensures Valid()
      ensures old(nextBlobKey) !in old(blobData)
      ensures blobData == old(blobData)[old(nextBlobKey) := dto.dataValue] && nextBlobKey == old(nextBlobKey) + 1
      ensures hourly == Put(old(hourly), dto)
      ensures blobIndex == IndexAll(old(blobIndex), BuildIndexes(dto, old(nextBlobKey)))
    {
      var key := InsertBlobData(dto);
      BatchInsertIndexes(BuildIndexes(dto, key));
    }

    /** get_timetamped_data_range: walks the hour rows from the hour of `lo`
        to the hour of `hi` and gathers the columns in [lo, hi]. The result
        lists exactly the points of the series in the closed interval, in
        strictly ascending time. */
    method GetTimestampedDataRange(sourceId: string, dataName: string, lo: int, hi: int) returns (r: Row)
      requires Valid()
      ensures r == RangeQuery(hourly, sourceId, dataName, lo, hi)
      ensures IsRangeOf(r, hourly, sourceId, dataName, lo, hi)
    {
      r := [];
      var h := HourOf(lo);
      while h <= HourOf(hi)
        invariant r + RangeFrom(hourly, sourceId, dataName, lo, hi, h) == RangeQuery(hourly, sourceId, dataName, lo, hi)
        decreases HourOf(hi) + 1 - h
      {
        var slice := Slice(RowAt(hourly, SeriesKey(sourceId, dataName, h)), lo, hi);
        assert r + RangeFrom(hourly, sourceId, dataName, lo, hi, h)
            == (r + slice) + RangeFrom(hourly, sourceId, dataName, lo, hi, h + 1);
        r := r + slice;
        h := h + 1;
      }
      assert r == RangeQuery(hourly, sourceId, dataName, lo, hi) by {
        assert RangeFrom(hourly, sourceId, dataName, lo, hi, h) == [];
        assert r + [] == r;
      }
      assert IsRangeOf(r, hourly, sourceId, dataName, lo, hi) by {
        RangeQuerySpec(hourly, sourceId, dataName, lo, hi);
      }
    }

    /** get_blobs_by_free_text_index: reads the index row of the normalized
        query and resolves each entry's blob, in row order. An entry whose blob
        is missing fails the search. */
    method GetBlobsByFreeTextIndex(sourceId: string, dataName: string, query: string)
      returns (r: Result<seq<Point>, SearchError>)
      requires Valid()
      ensures r == Search(blobIndex, blobData, sourceId, dataName, query)
      ensures r.Success? ==> StrictlyIncreasing(r.value)
    {
      var row := IndexRowAt(blobIndex, IndexKey(sourceId, dataName, StripAndLower(query)));
      var spec := Resolve(blobData, row);
      var hits := [];
      var i := 0;
      while i < |row|
        invariant 0 <= i <= |row|
        invariant forall j :: 0 <= j < i ==> row[j].1 in blobData
        invariant |hits| == i && forall j :: 0 <= j < i ==> hits[j] == (row[j].0, blobData[row[j].1])
      {
        if row[i].1 !in blobData {
          r := Failure(CorruptIndex(row[i].0, row[i].1));
          FirstMissing(blobData, row, i);
          return;
        }
        hits := hits + [(row[i].0, blobData[row[i].1])];
        i := i + 1;
      }
      r := Success(hits);
      assert hits == spec.value;
      SearchAscending(blobIndex, blobData, sourceId, dataName, query);
    }

    /** get_blobs_multi_data_by_free_text_index: searches each data name in
        turn and merges its hits into those gathered so far. The result holds
        all hits in ascending timestamp order. */
    method GetBlobsMultiDataByFreeTextIndex(sourceId: string, dataNames: seq<string>, query: string)
      returns (r: Result<seq<Point>, SearchError>)
      requires Valid()
      ensures r == MultiSearch(blobIndex, blobData, sourceId, dataNames, query)
      ensures r.Success? ==> Ascending(r.value) && multiset(r.value) == AllHits(blobIndex, blobData, sourceId, dataNames, query)
    {
      var acc := [];
      var i := 0;
      while i < |dataNames|
        invariant 0 <= i <= |dataNames|
        invariant MultiSearch(blobIndex, blobData, sourceId, dataNames[..i], query) == Success(acc)
      {
        assert dataNames[..i + 1][..i] == dataNames[..i];
        var hits := GetBlobsByFreeTextIndex(sourceId, dataNames[i], query);
        if hits.Failure? {
          r := Failure(hits.error);
          FailureSticks(blobIndex, blobData, sourceId, dataNames, query, i + 1);
          return;
        }
        acc := Merge(acc, hits.value);
        i := i + 1;
      }
      assert dataNames[..i] == dataNames;
      r := Success(acc);
      MultiSearchHits(blobIndex, blobData, sourceId, dataNames, query);
    }
  }

  /** The first entry whose blob is missing is the one the search reports. */
  lemma FirstMissing(blobs: Blobs, row: IndexRow, i: int)
    requires 0 <= i < |row| && row[i].1 !in blobs
    requires forall j :: 0 <= j < i ==> row[j].1 in blobs
    ensures Resolve(blobs, row) == Failure(CorruptIndex(row[i].0, row[i].1))
  {
    var r := Resolve(blobs, row);
    var i' :| 0 <= i' < |row| && row[i'].1 !in blobs && r.error == CorruptIndex(row[i'].0, row[i'].1)
      && forall j :: 0 <= j < i' ==> row[j].1 in blobs;
    assert i' == i;
  }

  /** Once the searches of a prefix of the data names fail, the whole merged
      search fails with the same error. */
  lemma {:induction false} FailureSticks(index: Index, blobs: Blobs, sourceId: string, names: seq<string>, query: string, i: int)
    requires 0 <= i <= |names|
    requires MultiSearch(index, blobs, sourceId, names[..i], query).Failure?
    ensures MultiSearch(index, blobs, sourceId, names, query) == MultiSearch(index, blobs, sourceId, names[..i], query)
    decreases |names| - i
  {
    if i == |names| {
      assert names[..i] == names;
    } else {
      assert names[..i + 1][..i] == names[..i];
      FailureSticks(index, blobs, sourceId, names, query, i + 1);
    }
  }
}
