/** The DAO behaviours exercised against a live keyspace in pycats/tests.py,
    each written as a method that drives a TimeSeriesCassandraDao through the
    same calls, with the outcome the assertions expect as its postcondition.
    The literal texts of those runs are replaced by parameters; what the
    assertions need of them (which queries match which documents) is stated
    through `Matches`, which `FreeTextIndex.MatchesByWords` reduces to words. */
module DaoScenarios {
  import opened Dto
  import opened Columns
  import opened TimeSeries
  import opened StringIndexer
  import opened FreeTextIndex
  import opened Dao

  // Times are whole seconds: the test ramp steps by ten minutes (600), and the
  // narrower ranges reach one minute (60) either side. They are written as
  // literals, which keeps the arithmetic linear for the verifier.

  /** 1979-12-31T22:00:00 and 1980-01-02T03:00:00 as seconds since 1970: the
      ramp of the range tests crosses a year boundary and 30 hour rows. */
  const RampStart: int := 315525600
  const RampEnd: int := 315630000

  function DigitChar(d: nat): (c: char)
    requires d < 10
    ensures '0' <= c <= '9'
  {
    (48 + d) as char
  }

  /** Decimal digits of n, as Python's str() writes a non-negative int. */
  function NatToString(n: nat): (s: string)
    ensures |s| >= 1 && forall i :: 0 <= i < |s| ==> '0' <= s[i] <= '9'
  {
    if n < 10 then [DigitChar(n)] else NatToString(n / 10) + [DigitChar(n % 10)]
  }

  /** The number a string of decimal digits denotes, most significant first. */
  function DigitsValue(s: string): nat
  {
    if |s| == 0 then 0
    else
      var c := s[|s| - 1];
      DigitsValue(s[..|s| - 1]) * 10 + (if '0' <= c <= '9' then c as int - 48 else 0)
  }

  /** NatToString writes the decimal text of n: reading it back gives n. */
  lemma {:induction false} NatToStringValue(n: nat)
    ensures DigitsValue(NatToString(n)) == n
  {
    if n >= 10 {
      var s := NatToString(n);
      assert s[..|s| - 1] == NatToString(n / 10);
      NatToStringValue(n / 10);
    }
  }

  /** Distinct numbers are written as distinct texts. */
  lemma NatToStringInjective(a: nat, b: nat)
    requires NatToString(a) == NatToString(b)
    ensures a == b
  {
    NatToStringValue(a);
    NatToStringValue(b);
  }

  /** The points the test helper writes: one every ten minutes from `start`,
      the i-th holding the text of i. */
  function Ramp(sourceId: string, dataName: string, start: int, n: nat): (r: seq<TimestampedData>)
    ensures |r| == n
    ensures forall i :: 0 <= i < n ==> r[i] == TimestampedData(sourceId, start + 600 * i, dataName, NatToString(i))
  {
    seq(n, i requires 0 <= i < n => TimestampedData(sourceId, start + 600 * i, dataName, NatToString(i)))
  }

  /** How many ten-minute steps from `start` stay at or before `end`. */
  function RampLength(start: int, end: int): nat
  {
    if end < start then 0 else (end - start) / 600 + 1
  }

  /** The ramp of the range tests has 175 points, 22:00 through 03:00 of the
      day after next. */
  lemma TestRampLength()
    ensures RampLength(RampStart, RampEnd) == 175
    ensures HourOf(RampEnd) - HourOf(RampStart) == 29
  {
  }

  lemma RampAscending(sourceId: string, dataName: string, start: int, n: nat)
    ensures AscendingSeries(Ramp(sourceId, dataName, start, n), sourceId, dataName)
  {
  }

  /** The last point of a ramp lies at or before `end`, and the next one
      would lie after it. */
  lemma RampBounds(start: int, end: int, i: int)
    requires 0 <= i < RampLength(start, end)
    ensures start <= start + 600 * i <= end
  {
  }

  /** When `end` is a whole number of steps after `start`, the ramp's last
      point is at `end`. */
  lemma RampReachesEnd(start: int, end: int)
    requires start <= end && (end - start) % 600 == 0
    ensures start + 600 * (RampLength(start, end) - 1) == end
    ensures 600 <= end - start ==> RampLength(start, end) >= 2
  {
    var q := (end - start) / 600;
    assert end - start == 600 * q + (end - start) % 600;
  }

  /** The test helper __insert_range_of_metrics: steps a timestamp from
      `start` by ten minutes while it is not after `end`, building one data
      point per step, written one by one or, with `batch`, in one batch at the
      end. Either way the store ends up the same. */
  method InsertRangeOfMetrics(dao: TimeSeriesCassandraDao, sourceId: string, dataName: string, start: int, end: int, batch: bool)
    returns (dtos: seq<TimestampedData>)
    requires dao.Valid()
    modifies dao
    ensures dao.Valid()
    ensures dtos == Ramp(sourceId, dataName, start, RampLength(start, end))
    ensures dao.hourly == PutAll(old(dao.hourly), dtos)
    ensures dao.blobData == old(dao.blobData) && dao.blobIndex == old(dao.blobIndex)
    ensures dao.nextBlobKey == old(dao.nextBlobKey)
  {
    var current := start;
    var value: nat := 0;
    dtos := [];
    while current <= end
      invariant current == start + 600 * value
      invariant value == 0 || current - 600 <= end
      invariant dtos == Ramp(sourceId, dataName, start, value)
      invariant dao.Valid()
      invariant batch ==> dao.hourly == old(dao.hourly)
      invariant !batch ==> dao.hourly == PutAll(old(dao.hourly), dtos)
      invariant dao.blobData == old(dao.blobData) && dao.blobIndex == old(dao.blobIndex)
      invariant dao.nextBlobKey == old(dao.nextBlobKey)
      decreases end - current
    {
      var dto := TimestampedData(sourceId, current, dataName, NatToString(value));
      if !batch {
        dao.InsertTimestampedData(dto);
        assert dao.hourly == PutAll(old(dao.hourly), dtos + [dto]) by {
          assert (dtos + [dto])[..|dtos|] == dtos;
        }
      }
      assert dtos + [dto] == Ramp(sourceId, dataName, start, value + 1) by {
        RampSnoc(sourceId, dataName, start, value);
      }
      dtos := dtos + [dto];
      current := current + 600;
      value := value + 1;
    }
    assert value == RampLength(start, end) by {
      RampStop(start, end, value);
    }
    if batch {
      dao.BatchInsertTimestampedData(dtos);
    }
  }

  /** One more step of the ramp appends the next point. */
  lemma RampSnoc(sourceId: string, dataName: string, start: int, n: nat)
    ensures Ramp(sourceId, dataName, start, n + 1)
         == Ramp(sourceId, dataName, start, n) + [TimestampedData(sourceId, start + 600 * n, dataName, NatToString(n))]
  {
  }

  /** The ramp loop stops after the last step at or before `end`. */
  lemma RampStop(start: int, end: int, n: nat)
    requires end < start + 600 * n
    requires n == 0 || start + 600 * (n - 1) <= end
    ensures n == RampLength(start, end)
  {
    if n > 0 {
      var k := end - start;
      assert 600 * (n - 1) <= k < 600 * n;
      assert k / 600 == n - 1;
    }
  }

  /** test_should_load_all_data_for_full_range_using_{batch,single}_insert:
      after the ramp over [start, end] the range query over [start, end]
      returns every inserted point, in insertion order, with its value. */
  method FullRangeScenario(dao: TimeSeriesCassandraDao, sourceId: string, dataName: string, start: int, end: int, batch: bool)
    returns (inserted: seq<TimestampedData>, result: seq<Point>)
    requires dao.Valid()
    requires EmptyBetween(dao.hourly, sourceId, dataName, start, end)
    modifies dao
    ensures |result| == |inserted| == RampLength(start, end)
    ensures forall i :: 0 <= i < |inserted| ==> result[i] == (inserted[i].timestamp, inserted[i].dataValue)
  {
    ghost var before := dao.hourly;
    inserted := InsertRangeOfMetrics(dao, sourceId, dataName, start, end, batch);
    result := dao.GetTimestampedDataRange(sourceId, dataName, start, end);
    RampAscending(sourceId, dataName, start, |inserted|);
    forall i | 0 <= i < |inserted| ensures start <= inserted[i].timestamp <= end {
      RampBounds(start, end, i);
    }
    FullRangeAfterInserts(before, inserted, sourceId, dataName, start, end);
  }

  /** test_should_load_correct_data_for_partial_range_using_batch_insert:
      with `end` a whole number of ten-minute steps after `start`, the range
      narrowed by one minute at each end misses exactly the first and the last
      point; the i-th result is the (i + 1)-th point inserted. */
  method PartialRangeScenario(dao: TimeSeriesCassandraDao, sourceId: string, dataName: string, start: int, end: int)
    returns (inserted: seq<TimestampedData>, result: seq<Point>)
    requires dao.Valid()
    requires 600 <= end - start && (end - start) % 600 == 0
    requires EmptyBetween(dao.hourly, sourceId, dataName, start, end)
    modifies dao
    ensures |inserted| == RampLength(start, end) && |result| == |inserted| - 2
    ensures forall i :: 0 <= i < |result| ==> result[i] == (inserted[i + 1].timestamp, inserted[i + 1].dataValue)
  {
    ghost var before := dao.hourly;
    inserted := InsertRangeOfMetrics(dao, sourceId, dataName, start, end, true);
    result := dao.GetTimestampedDataRange(sourceId, dataName, start + 60, end - 60);
    InnerRangeOfRamp(before, inserted, sourceId, dataName, start, end, result);
  }

  /** The inner range over points one step apart from `start` to `end`, when
      `end` is a whole number of steps after `start`: all points but the first
      and the last. */
  lemma InnerRangeOfRamp(store: Store, ds: seq<TimestampedData>, sourceId: string, dataName: string, start: int, end: int,
                         r: Row)
    requires WellFormed(store)
    requires 600 <= end - start && (end - start) % 600 == 0
    requires EmptyBetween(store, sourceId, dataName, start, end)
    requires ds == Ramp(sourceId, dataName, start, RampLength(start, end))
    requires r == RangeQuery(PutAll(store, ds), sourceId, dataName, start + 60, end - 60)
    ensures |r| == |ds| - 2
    ensures forall i :: 0 <= i < |r| ==> r[i] == (ds[i + 1].timestamp, ds[i + 1].dataValue)
  {
    InnerRampBounds(sourceId, dataName, start, end);
    InnerRangeAfterInserts(store, ds, sourceId, dataName, start + 60, end - 60);
  }

  /** The ramp from `start` to a whole number of steps later ascends, and only
      its first and last points lie outside the range narrowed by one minute
      at each end. */
  lemma InnerRampBounds(sourceId: string, dataName: string, start: int, end: int)
    requires 600 <= end - start && (end - start) % 600 == 0
    ensures var ds := Ramp(sourceId, dataName, start, RampLength(start, end));
      && AscendingSeries(ds, sourceId, dataName)
      && |ds| >= 2 && ds[0].timestamp < start + 60 && end - 60 < ds[|ds| - 1].timestamp
      && forall i :: 1 <= i < |ds| - 1 ==> start + 60 <= ds[i].timestamp <= end - 60
  {
    var ds := Ramp(sourceId, dataName, start, RampLength(start, end));
    assert |ds| >= 2 && start + 600 * (|ds| - 1) == end by {
      RampReachesEnd(start, end);
    }
    assert forall i :: 0 <= i < |ds| ==>
      ds[i].sourceId == sourceId && ds[i].dataName == dataName && ds[i].timestamp == start + 600 * i;
  }

  // ---------------------------------------------------------------------------
  // Helpers about results.
  // ---------------------------------------------------------------------------

  /** A range over a store whose series holds exactly one point in [lo, hi]
      is that point alone. */
  lemma SinglePointRange(store: Store, d: TimestampedData, lo: int, hi: int, r: Row)
    requires WellFormed(store) && lo <= d.timestamp <= hi
    requires forall t :: lo <= t <= hi ==>
      ValueAt(store, d.sourceId, d.dataName, t) == if t == d.timestamp then Some(d.dataValue) else None
    requires IsRangeOf(r, store, d.sourceId, d.dataName, lo, hi)
    ensures r == [(d.timestamp, d.dataValue)]
  {
    var single: Row := [(d.timestamp, d.dataValue)];
    assert ColumnsOf(single) == map[d.timestamp := d.dataValue];
    assert IsRangeOf(single, store, d.sourceId, d.dataName, lo, hi);
    RangeUnique(r, single, store, d.sourceId, d.dataName, lo, hi);
  }

  /** Two hit lists in strictly ascending time holding the same hits are equal. */
  lemma SameHitsSameList(s: seq<Point>, ps: seq<Point>)
    requires StrictlyIncreasing(s) && StrictlyIncreasing(ps)
    requires forall p :: p in s <==> p in ps
    ensures s == ps
  {
    ColumnsOfSpec(s);
    ColumnsOfSpec(ps);
    forall t | t in ColumnsOf(s) ensures t in ColumnsOf(ps) && ColumnsOf(ps)[t] == ColumnsOf(s)[t] {
      var i :| 0 <= i < |s| && s[i].0 == t;
      assert s[i] in ps;
      var j :| 0 <= j < |ps| && ps[j] == s[i];
    }
    forall t | t in ColumnsOf(ps) ensures t in ColumnsOf(s) {
      var j :| 0 <= j < |ps| && ps[j].0 == t;
      assert ps[j] in s;
      var i :| 0 <= i < |s| && s[i] == ps[j];
    }
    assert ColumnsOf(s) == ColumnsOf(ps);
    SortedUnique(s, ps);
  }

  /** The hits of the documents `ds` (listed in ascending time) that `keep`
      selects, in that order. */
  ghost function HitsWhere(ds: seq<TimestampedData>, keep: TimestampedData -> bool): seq<Point>
  {
    if ds == [] then []
    else
      var d := ds[|ds| - 1];
      HitsWhere(ds[..|ds| - 1], keep) + (if keep(d) then [(d.timestamp, d.dataValue)] else [])
  }

  /** HitsWhere lists exactly the hits of the selected documents. */
  lemma {:induction false} HitsWhereMembers(ds: seq<TimestampedData>, keep: TimestampedData -> bool)
    ensures forall p :: p in HitsWhere(ds, keep) <==>
      exists i :: 0 <= i < |ds| && keep(ds[i]) && p == (ds[i].timestamp, ds[i].dataValue)
  {
    if ds != [] {
      var init := ds[..|ds| - 1];
      var d := ds[|ds| - 1];
      HitsWhereMembers(init, keep);
      var a := HitsWhere(init, keep);
      var b: seq<Point> := if keep(d) then [(d.timestamp, d.dataValue)] else [];
      assert HitsWhere(ds, keep) == a + b;
      forall p ensures p in a + b <==> exists i :: 0 <= i < |ds| && keep(ds[i]) && p == (ds[i].timestamp, ds[i].dataValue) {
        if p in a {
          var k :| 0 <= k < |init| && keep(init[k]) && p == (init[k].timestamp, init[k].dataValue);
          assert ds[k] == init[k];
        } else if p in b {
          assert keep(ds[|ds| - 1]);
        }
        if exists i :: 0 <= i < |ds| && keep(ds[i]) && p == (ds[i].timestamp, ds[i].dataValue) {
          var i :| 0 <= i < |ds| && keep(ds[i]) && p == (ds[i].timestamp, ds[i].dataValue);
          if i < |init| {
            assert init[i] == ds[i];
            assert p in a;
          } else {
            assert p in b;
          }
        }
      }
    }
  }

  /** HitsWhere over documents in ascending time lists its hits in strictly
      ascending time, and exactly those of the selected documents. */
  lemma {:induction false} HitsWhereSpec(ds: seq<TimestampedData>, keep: TimestampedData -> bool)
    requires forall i, j :: 0 <= i < j < |ds| ==> ds[i].timestamp < ds[j].timestamp
    ensures StrictlyIncreasing(HitsWhere(ds, keep))
    ensures forall p :: p in HitsWhere(ds, keep) <==>
      exists i :: 0 <= i < |ds| && keep(ds[i]) && p == (ds[i].timestamp, ds[i].dataValue)
  {
    HitsWhereMembers(ds, keep);
    if ds != [] {
      var init := ds[..|ds| - 1];
      var d := ds[|ds| - 1];
      HitsWhereSpec(init, keep);
      var a := HitsWhere(init, keep);
      var b: seq<Point> := if keep(d) then [(d.timestamp, d.dataValue)] else [];
      HitsBefore(init, d, keep);
      AppendRows(a, b);
      assert HitsWhere(ds, keep) == a + b;
    }
  }

  /** Every selected hit of earlier documents is earlier than a later document. */
  lemma HitsBefore(init: seq<TimestampedData>, d: TimestampedData, keep: TimestampedData -> bool)
    requires forall i :: 0 <= i < |init| ==> init[i].timestamp < d.timestamp
    requires forall p :: p in HitsWhere(init, keep) <==>
      exists i :: 0 <= i < |init| && keep(init[i]) && p == (init[i].timestamp, init[i].dataValue)
    ensures forall i :: 0 <= i < |HitsWhere(init, keep)| ==> HitsWhere(init, keep)[i].0 < d.timestamp
  {
    var a := HitsWhere(init, keep);
    forall i | 0 <= i < |a| ensures a[i].0 < d.timestamp {
      assert a[i] in a;
      var k :| 0 <= k < |init| && keep(init[k]) && a[i] == (init[k].timestamp, init[k].dataValue);
    }
  }

  /** `ordered` lists, in strictly ascending time, exactly the documents of
      `docs` that belong to the series. */
  ghost predicate ListsSeries(ordered: seq<TimestampedData>, docs: seq<(TimestampedData, BlobKey)>,
                              sourceId: string, dataName: string)
  {
    && (forall i, j :: 0 <= i < j < |ordered| ==> ordered[i].timestamp < ordered[j].timestamp)
    && (forall i :: 0 <= i < |docs| && InSeries(docs[i].0, sourceId, dataName) ==> docs[i].0 in ordered)
    && (forall j :: 0 <= j < |ordered| ==>
          exists i :: 0 <= i < |docs| && InSeries(docs[i].0, sourceId, dataName) && docs[i].0 == ordered[j])
  }

  /** After indexing `docs`, a search returns the matching hits of the
      series' documents listed in ascending time by `ordered`. */
  lemma SearchIsHitsWhere(index: Index, blobs: Blobs, docs: seq<(TimestampedData, BlobKey)>,
                          sourceId: string, dataName: string, query: string, ordered: seq<TimestampedData>)
    requires IndexWellFormed(index)
    requires IndexRowAt(index, IndexKey(sourceId, dataName, StripAndLower(query))) == []
    requires BlobsHold(blobs, docs)
    requires forall i, j :: 0 <= i < |docs| && 0 <= j < |docs| && i != j
               && InSeries(docs[i].0, sourceId, dataName) && InSeries(docs[j].0, sourceId, dataName)
               ==> docs[i].0.timestamp != docs[j].0.timestamp
    requires ListsSeries(ordered, docs, sourceId, dataName)
    ensures Search(IndexDocs(index, docs), blobs, sourceId, dataName, query)
      == Success(HitsWhere(ordered, d => Matches(d, query)))
  {
    var keep := d => Matches(d, query);
    var r := Search(IndexDocs(index, docs), blobs, sourceId, dataName, query);
    SearchHitsExactly(index, blobs, docs, sourceId, dataName, query, keep);
    SameHitsList(r.value, docs, sourceId, dataName, keep, ordered);
  }

  /** SearchAfterIndexing, with its two inclusions as one equivalence and the
      match test passed as `keep`. */
  lemma SearchHitsExactly(index: Index, blobs: Blobs, docs: seq<(TimestampedData, BlobKey)>,
                          sourceId: string, dataName: string, query: string, keep: TimestampedData -> bool)
    requires IndexWellFormed(index)
    requires IndexRowAt(index, IndexKey(sourceId, dataName, StripAndLower(query))) == []
    requires BlobsHold(blobs, docs)
    requires forall i, j :: 0 <= i < |docs| && 0 <= j < |docs| && i != j
               && InSeries(docs[i].0, sourceId, dataName) && InSeries(docs[j].0, sourceId, dataName)
               ==> docs[i].0.timestamp != docs[j].0.timestamp
    requires keep == (d => Matches(d, query))
    ensures var r := Search(IndexDocs(index, docs), blobs, sourceId, dataName, query);
      && r.Success?
      && StrictlyIncreasing(r.value)
      && forall p :: p in r.value <==>
           exists i :: 0 <= i < |docs| && InSeries(docs[i].0, sourceId, dataName) && keep(docs[i].0)
             && p == (docs[i].0.timestamp, docs[i].0.dataValue)
  {
    var r := Search(IndexDocs(index, docs), blobs, sourceId, dataName, query);
    SearchAfterIndexing(index, blobs, docs, sourceId, dataName, query);
    forall p | p in r.value
      ensures exists i :: 0 <= i < |docs| && InSeries(docs[i].0, sourceId, dataName) && keep(docs[i].0)
                && p == (docs[i].0.timestamp, docs[i].0.dataValue)
    {
      var i :| 0 <= i < |docs| && InSeries(docs[i].0, sourceId, dataName) && Matches(docs[i].0, query)
        && p == (docs[i].0.timestamp, docs[i].0.dataValue);
      assert keep(docs[i].0);
    }
    forall p | exists i :: 0 <= i < |docs| && InSeries(docs[i].0, sourceId, dataName) && keep(docs[i].0)
                 && p == (docs[i].0.timestamp, docs[i].0.dataValue)
      ensures p in r.value
    {
      var i :| 0 <= i < |docs| && InSeries(docs[i].0, sourceId, dataName) && keep(docs[i].0)
        && p == (docs[i].0.timestamp, docs[i].0.dataValue);
      assert Matches(docs[i].0, query);
    }
  }

  /** A hit list in strictly ascending time holding the selected hits of the
      indexed documents of the series is the list of those hits taken from
      the same documents listed in time order. */
  lemma SameHitsList(hits: seq<Point>, docs: seq<(TimestampedData, BlobKey)>,
                     sourceId: string, dataName: string, keep: TimestampedData -> bool, ordered: seq<TimestampedData>)
    requires StrictlyIncreasing(hits)
    requires ListsSeries(ordered, docs, sourceId, dataName)
    requires forall p :: p in hits <==>
      exists i :: 0 <= i < |docs| && InSeries(docs[i].0, sourceId, dataName) && keep(docs[i].0)
        && p == (docs[i].0.timestamp, docs[i].0.dataValue)
    ensures hits == HitsWhere(ordered, keep)
  {
    var expected := HitsWhere(ordered, keep);
    HitsWhereSpec(ordered, keep);
    forall p ensures p in hits <==> p in expected {
      if p in hits {
        var i :| 0 <= i < |docs| && InSeries(docs[i].0, sourceId, dataName) && keep(docs[i].0)
          && p == (docs[i].0.timestamp, docs[i].0.dataValue);
        var j :| 0 <= j < |ordered| && ordered[j] == docs[i].0;
      }
      if p in expected {
        var j :| 0 <= j < |ordered| && keep(ordered[j]) && p == (ordered[j].timestamp, ordered[j].dataValue);
        var i :| 0 <= i < |docs| && InSeries(docs[i].0, sourceId, dataName) && docs[i].0 == ordered[j];
      }
    }
    SameHitsSameList(hits, expected);
  }

  /** test_should_store_a_unicode_string_and_corresponding_indexes_and_load_by_date_range_and_index
      and test_should_store_and_load_a_complex_string_and_corresponding_indexes_and_load_by_index:
      a data point written and indexed is the only point of its range one
      minute either side, and a search finds it exactly when the query
      matches its text; otherwise the search returns no hits, not an error. */
  method IndexedTextScenario(dao: TimeSeriesCassandraDao, dto: TimestampedData, query: string)
    returns (range: seq<Point>, hits: Result<seq<Point>, SearchError>)
    requires dao.Valid()
    requires EmptyBetween(dao.hourly, dto.sourceId, dto.dataName, dto.timestamp - 60, dto.timestamp + 60)
    requires IndexRowAt(dao.blobIndex, IndexKey(dto.sourceId, dto.dataName, StripAndLower(query))) == []
    modifies dao
    ensures range == [(dto.timestamp, dto.dataValue)]
    ensures hits == Success(if Matches(dto, query) then [(dto.timestamp, dto.dataValue)] else [])
  {
    ghost var index := dao.blobIndex;
    dao.InsertTimestampedData(dto);
    ghost var key := dao.nextBlobKey;
    dao.InsertIndexableTextAsBlobDataAndInsertIndex(dto);
    assert dao.blobIndex == IndexAll(index, BuildIndexes(dto, key));
    range := dao.GetTimestampedDataRange(dto.sourceId, dto.dataName, dto.timestamp - 60, dto.timestamp + 60);
    hits := dao.GetBlobsByFreeTextIndex(dto.sourceId, dto.dataName, query);
    SinglePointRange(dao.hourly, dto, dto.timestamp - 60, dto.timestamp + 60, range);
    OneDocumentSearch(index, dao.blobData, dto, key, query);
  }

  /** Indexing one document into an index with no entries for the query's
      term, then searching, finds that document exactly when it matches. */
  lemma OneDocumentSearch(index: Index, blobs: Blobs, dto: TimestampedData, key: BlobKey, query: string)
    requires IndexWellFormed(index)
    requires IndexRowAt(index, IndexKey(dto.sourceId, dto.dataName, StripAndLower(query))) == []
    requires key in blobs && blobs[key] == dto.dataValue
    ensures Search(IndexAll(index, BuildIndexes(dto, key)), blobs, dto.sourceId, dto.dataName, query)
      == Success(if Matches(dto, query) then [(dto.timestamp, dto.dataValue)] else [])
  {
    var docs := [(dto, key)];
    assert docs[..0] == [];
    assert IndexAll(index, BuildIndexes(dto, key)) == IndexDocs(index, docs);
    SearchIsHitsWhere(index, blobs, docs, dto.sourceId, dto.dataName, query, [dto]);
    HitsWhereOne(dto, d => Matches(d, query));
  }

  lemma HitsWhereOne(d: TimestampedData, keep: TimestampedData -> bool)
    ensures HitsWhere([d], keep) == if keep(d) then [(d.timestamp, d.dataValue)] else []
  {
    assert [d][..0] == [];
  }

  /** test_should_store_muliple_similar_complex_strings_with_different_timestamps_saved_out_of_order_should_be_loaded_in_order:
      four documents of one series written and indexed in the order d1, d2,
      d3, d4 while their timestamps ascend as d1, d3, d2, d4. Each of the two
      searches returns the documents its query matches, in timestamp order;
      ThreeOfFour and OnlyThirdOfFour give the hit lists the test expects
      when the first query matches d1, d2 and d3 only and the second d2 only. */
  method OutOfOrderScenario(dao: TimeSeriesCassandraDao, d1: TimestampedData, d2: TimestampedData,
                            d3: TimestampedData, d4: TimestampedData, query: string, query2: string)
    returns (hits: Result<seq<Point>, SearchError>, hits2: Result<seq<Point>, SearchError>)
    requires dao.Valid()
    requires InSeries(d2, d1.sourceId, d1.dataName) && InSeries(d3, d1.sourceId, d1.dataName)
    requires InSeries(d4, d1.sourceId, d1.dataName)
    requires d1.timestamp < d3.timestamp < d2.timestamp < d4.timestamp
    requires IndexRowAt(dao.blobIndex, IndexKey(d1.sourceId, d1.dataName, StripAndLower(query))) == []
    requires IndexRowAt(dao.blobIndex, IndexKey(d1.sourceId, d1.dataName, StripAndLower(query2))) == []
    modifies dao
    ensures hits == Success(HitsWhere([d1, d3, d2, d4], d => Matches(d, query)))
    ensures hits2 == Success(HitsWhere([d1, d3, d2, d4], d => Matches(d, query2)))
  {
    ghost var index := dao.blobIndex;
    ghost var docs := IndexEach(dao, [d1, d2, d3, d4], true);
    hits := dao.GetBlobsByFreeTextIndex(d1.sourceId, d1.dataName, query);
    hits2 := dao.GetBlobsByFreeTextIndex(d1.sourceId, d1.dataName, query2);
    FourDocumentSearch(index, dao.blobData, docs, d1, d2, d3, d4, query);
    FourDocumentSearch(index, dao.blobData, docs, d1, d2, d3, d4, query2);
  }

  /** The tests' write-and-index steps, document by document in list order:
      with `writePoints` each data point is written first, then its text is
      stored and indexed. `docs` lists the documents with the blob keys they
      received. */
  method IndexEach(dao: TimeSeriesCassandraDao, ds: seq<TimestampedData>, writePoints: bool)
    returns (ghost docs: seq<(TimestampedData, BlobKey)>)
    requires dao.Valid()
    modifies dao
    ensures dao.Valid()
    ensures |docs| == |ds| && forall i :: 0 <= i < |ds| ==> docs[i].0 == ds[i]
    ensures dao.blobIndex == IndexDocs(old(dao.blobIndex), docs)
    ensures BlobsHold(dao.blobData, docs)
  {
    ghost var index := dao.blobIndex;
    docs := [];
    var i := 0;
    while i < |ds|
      invariant 0 <= i <= |ds|
      invariant dao.Valid()
      invariant |docs| == i && forall j :: 0 <= j < i ==> docs[j].0 == ds[j]
      invariant dao.blobIndex == IndexDocs(index, docs)
      invariant BlobsHold(dao.blobData, docs)
    {
      ghost var prev := docs;
      if writePoints {
        docs := StoreAndIndex(dao, ds[i], index, docs);
      } else {
        docs := IndexText(dao, ds[i], index, docs);
      }
      assert |docs| == i + 1 && forall j :: 0 <= j < i + 1 ==> docs[j].0 == ds[j] by {
        assert docs[..i] == prev && docs[i].0 == ds[i];
        forall j | 0 <= j < i
          ensures docs[j].0 == ds[j]
        {
          assert docs[j] == prev[j];
        }
      }
      i := i + 1;
    }
  }

  /** The two calls the scenario makes per document: write the point, then
      store and index its text. `docs` lists the documents indexed since the
      index was `index`, each with its blob row key. */
  method StoreAndIndex(dao: TimeSeriesCassandraDao, d: TimestampedData, ghost index: Index,
                       ghost docs: seq<(TimestampedData, BlobKey)>)
    returns (ghost docs': seq<(TimestampedData, BlobKey)>)
    requires dao.Valid()
    requires dao.blobIndex == IndexDocs(index, docs)
    requires BlobsHold(dao.blobData, docs)
    modifies dao
    ensures dao.Valid()
    ensures docs' == docs + [(d, old(dao.nextBlobKey))]
    ensures dao.blobIndex == IndexDocs(index, docs')
    ensures BlobsHold(dao.blobData, docs')
    ensures dao.hourly == Put(Put(old(dao.hourly), d), d)
  {
    dao.InsertTimestampedData(d);
    docs' := IndexText(dao, d, index, docs);
  }

  /** insert_indexable_text_as_blob_data_and_insert_index, seen as one more
      document indexed since the index was `index`. */
  method IndexText(dao: TimeSeriesCassandraDao, d: TimestampedData, ghost index: Index,
                   ghost docs: seq<(TimestampedData, BlobKey)>)
    returns (ghost docs': seq<(TimestampedData, BlobKey)>)
    requires dao.Valid()
    requires dao.blobIndex == IndexDocs(index, docs)
    requires BlobsHold(dao.blobData, docs)
    modifies dao
    ensures dao.Valid()
    ensures docs' == docs + [(d, old(dao.nextBlobKey))]
    ensures dao.blobIndex == IndexDocs(index, docs')
    ensures BlobsHold(dao.blobData, docs')
    ensures dao.hourly == Put(old(dao.hourly), d)
  {
    ghost var key, blobs := dao.nextBlobKey, dao.blobData;
    docs' := docs + [(d, key)];
    dao.InsertIndexableTextAsBlobDataAndInsertIndex(d);
    assert dao.blobIndex == IndexDocs(index, docs') by {
      IndexDocsSnoc(index, docs, (d, key), docs');
    }
    assert BlobsHold(dao.blobData, docs') by {
      BlobsHoldSnoc(blobs, docs, d, key, docs');
    }
  }

  /** A text stored under a fresh key leaves every earlier blob in place. */
  lemma BlobsHoldSnoc(blobs: Blobs, docs: seq<(TimestampedData, BlobKey)>, d: TimestampedData, key: BlobKey,
                      longer: seq<(TimestampedData, BlobKey)>)
    requires BlobsHold(blobs, docs) && key !in blobs
    requires longer == docs + [(d, key)]
    ensures BlobsHold(blobs[key := d.dataValue], longer)
  {
    forall i | 0 <= i < |longer|
      ensures longer[i].1 in blobs[key := d.dataValue] && blobs[key := d.dataValue][longer[i].1] == longer[i].0.dataValue
    {
      if i < |docs| {
        assert longer[i] == docs[i];
      }
    }
  }

  lemma IndexDocsSnoc(index: Index, docs: seq<(TimestampedData, BlobKey)>, d: (TimestampedData, BlobKey),
                      longer: seq<(TimestampedData, BlobKey)>)
    requires longer == docs + [d]
    ensures IndexDocs(index, longer) == IndexAll(IndexDocs(index, docs), BuildIndexes(d.0, d.1))
  {
    assert longer[..|docs|] == docs;
  }

  lemma HitsWhereSnoc(ds: seq<TimestampedData>, d: TimestampedData, keep: TimestampedData -> bool,
                      longer: seq<TimestampedData>)
    requires longer == ds + [d]
    ensures HitsWhere(longer, keep) == HitsWhere(ds, keep) + (if keep(d) then [(d.timestamp, d.dataValue)] else [])
  {
    assert longer[..|ds|] == ds;
  }

  /** The hits of four documents are those of each, in order. */
  lemma HitsWhereFour(a: TimestampedData, b: TimestampedData, c: TimestampedData, d: TimestampedData, keep: TimestampedData -> bool)
    ensures HitsWhere([a, b, c, d], keep) ==
      HitsWhere([a], keep) + HitsWhere([b], keep) + HitsWhere([c], keep) + HitsWhere([d], keep)
  {
    var ha, hb, hc, hd := HitsWhere([a], keep), HitsWhere([b], keep), HitsWhere([c], keep), HitsWhere([d], keep);
    assert HitsWhere([a, b], keep) == ha + hb by {
      HitsWhereSnoc([a], b, keep, [a, b]);
      HitsWhereOne(b, keep);
    }
    assert HitsWhere([a, b, c], keep) == ha + hb + hc by {
      HitsWhereSnoc([a, b], c, keep, [a, b, c]);
      HitsWhereOne(c, keep);
    }
    assert HitsWhere([a, b, c, d], keep) == ha + hb + hc + hd by {
      HitsWhereSnoc([a, b, c], d, keep, [a, b, c, d]);
      HitsWhereOne(d, keep);
    }
  }

  /** When the first three of four documents match and the last does not,
      the hits are the first three, in order (the "Notice" search). */
  lemma ThreeOfFour(a: TimestampedData, b: TimestampedData, c: TimestampedData, d: TimestampedData, keep: TimestampedData -> bool)
    requires keep(a) && keep(b) && keep(c) && !keep(d)
    ensures HitsWhere([a, b, c, d], keep) == [(a.timestamp, a.dataValue), (b.timestamp, b.dataValue), (c.timestamp, c.dataValue)]
  {
    HitsWhereFour(a, b, c, d, keep);
    HitsWhereOne(a, keep);
    HitsWhereOne(b, keep);
    HitsWhereOne(c, keep);
    HitsWhereOne(d, keep);
  }

  /** When only the third of four documents matches, it is the one hit (the
      "Hans-Smiths-MacBook" search). */
  lemma OnlyThirdOfFour(a: TimestampedData, b: TimestampedData, c: TimestampedData, d: TimestampedData, keep: TimestampedData -> bool)
    requires !keep(a) && !keep(b) && keep(c) && !keep(d)
    ensures HitsWhere([a, b, c, d], keep) == [(c.timestamp, c.dataValue)]
  {
    HitsWhereFour(a, b, c, d, keep);
    HitsWhereOne(a, keep);
    HitsWhereOne(b, keep);
    HitsWhereOne(c, keep);
    HitsWhereOne(d, keep);
  }

  /** The search of OutOfOrderScenario, over the four documents indexed in
      write order, each with its text stored under its blob row key. */
  lemma FourDocumentSearch(index: Index, blobs: Blobs, docs: seq<(TimestampedData, BlobKey)>, d1: TimestampedData,
                           d2: TimestampedData, d3: TimestampedData, d4: TimestampedData, query: string)
    requires IndexWellFormed(index)
    requires |docs| == 4 && docs[0].0 == d1 && docs[1].0 == d2 && docs[2].0 == d3 && docs[3].0 == d4
    requires BlobsHold(blobs, docs)
    requires InSeries(d2, d1.sourceId, d1.dataName) && InSeries(d3, d1.sourceId, d1.dataName)
    requires InSeries(d4, d1.sourceId, d1.dataName)
    requires d1.timestamp < d3.timestamp < d2.timestamp < d4.timestamp
    requires IndexRowAt(index, IndexKey(d1.sourceId, d1.dataName, StripAndLower(query))) == []
    ensures Search(IndexDocs(index, docs), blobs, d1.sourceId, d1.dataName, query)
      == Success(HitsWhere([d1, d3, d2, d4], d => Matches(d, query)))
  {
    var ordered := [d1, d3, d2, d4];
    forall j | 0 <= j < |ordered|
      ensures exists i :: 0 <= i < |docs| && InSeries(docs[i].0, d1.sourceId, d1.dataName) && docs[i].0 == ordered[j]
    {
      if j == 0 {
        assert docs[0].0 == ordered[j];
      } else if j == 1 {
        assert docs[2].0 == ordered[j];
      } else if j == 2 {
        assert docs[1].0 == ordered[j];
      } else {
        assert docs[3].0 == ordered[j];
      }
    }
    SearchIsHitsWhere(index, blobs, docs, d1.sourceId, d1.dataName, query, ordered);
  }

  /** test_should_store_arabic_and_store_manual_index_and_load_by_free_text_search:
      a text stored as a blob with two index entries written by hand (the
      terms are taken as given, not derived from the text). The point is the
      only one of its range one minute either side, and a search whose
      normalized query is the first hand-written term finds it. */
  method ManualIndexScenario(dao: TimeSeriesCassandraDao, dto: TimestampedData, term1: string, term2: string, query: string)
    returns (range: seq<Point>, hits: Result<seq<Point>, SearchError>)
    requires dao.Valid()
    requires EmptyBetween(dao.hourly, dto.sourceId, dto.dataName, dto.timestamp - 60, dto.timestamp + 60)
    requires StripAndLower(query) == term1
    requires IndexRowAt(dao.blobIndex, IndexKey(dto.sourceId, dto.dataName, term1)) == []
    modifies dao
    ensures range == [(dto.timestamp, dto.dataValue)]
    ensures hits == Success([(dto.timestamp, dto.dataValue)])
  {
    ghost var index := dao.blobIndex;
    var key := dao.InsertBlobData(dto);
    var e1 := BlobIndex(dto.sourceId, dto.dataName, term1, dto.timestamp, key);
    var e2 := BlobIndex(dto.sourceId, dto.dataName, term2, dto.timestamp, key);
    dao.BatchInsertIndexes([e1, e2]);
    range := dao.GetTimestampedDataRange(dto.sourceId, dto.dataName, dto.timestamp - 60, dto.timestamp + 60);
    hits := dao.GetBlobsByFreeTextIndex(dto.sourceId, dto.dataName, query);
    SinglePointRange(dao.hourly, dto, dto.timestamp - 60, dto.timestamp + 60, range);
    ManualRow(index, e1, e2);
    ResolveOne(dao.blobData, dto.timestamp, key);
  }

  /** A row naming one stored blob resolves to that blob's text. */
  lemma ResolveOne(blobs: Blobs, t: int, key: BlobKey)
    requires key in blobs
    ensures Resolve(blobs, [(t, key)]) == Success([(t, blobs[key])])
  {
    var r := Resolve(blobs, [(t, key)]);
    assert r.Success?;
    assert |r.value| == 1 && r.value[0] == (t, blobs[key]);
    assert r.value == [(t, blobs[key])];
  }

  /** Two entries written at the same time for the same blob leave the first
      one's row, empty before, holding that blob alone. */
  lemma ManualRow(index: Index, e1: BlobIndex, e2: BlobIndex)
    requires IndexWellFormed(index)
    requires IndexRowAt(index, KeyOfEntry(e1)) == []
    requires e2.timestamp == e1.timestamp && e2.blobRowKey == e1.blobRowKey
    ensures IndexRowAt(IndexAll(index, [e1, e2]), KeyOfEntry(e1)) == [(e1.timestamp, e1.blobRowKey)]
  {
    var k := KeyOfEntry(e1);
    var row := IndexRowAt(IndexAll(index, [e1, e2]), k);
    var one := [(e1.timestamp, e1.blobRowKey)];
    assert [e1, e2][..1] == [e1];
    assert [e1][..0] == [];
    assert ColumnsOf(one) == map[e1.timestamp := e1.blobRowKey] by {
      assert one[1..] == [];
    }
    assert ColumnsOf(IndexRowAt(index, k)) == map[];
    forall t ensures Lookup(ColumnsOf(row), t) == Lookup(ColumnsOf(one), t) {
      IndexAllView(index, [e1, e2], k, t);
      if t == e1.timestamp {
        assert LastEntry([e1, e2], k, t) == Some(e1.blobRowKey);
      } else {
        assert LastEntry([e1], k, t) == None;
        assert LastEntry([e1, e2], k, t) == None;
      }
    }
    forall t | t in ColumnsOf(row) ensures t in ColumnsOf(one) && ColumnsOf(row)[t] == ColumnsOf(one)[t] {
      assert Lookup(ColumnsOf(row), t) == Lookup(ColumnsOf(one), t);
    }
    forall t | t in ColumnsOf(one) ensures t in ColumnsOf(row) {
      assert Lookup(ColumnsOf(row), t) == Lookup(ColumnsOf(one), t);
    }
    SortedUnique(row, one);
  }

  /** test_should_store_data_for_several_data_names_and_load_by_multi_data_index_search:
      three texts of one source under three data names, written and indexed
      in ascending time, each matching the query. The multi-name search
      returns all three, ascending. */
  method MultiNameScenario(dao: TimeSeriesCassandraDao, d1: TimestampedData, d2: TimestampedData,
                           d3: TimestampedData, query: string)
    returns (hits: Result<seq<Point>, SearchError>)
    requires dao.Valid()
    requires d2.sourceId == d1.sourceId && d3.sourceId == d1.sourceId
    requires d1.dataName != d2.dataName && d2.dataName != d3.dataName && d1.dataName != d3.dataName
    requires d1.timestamp < d2.timestamp < d3.timestamp
    requires forall d :: d in [d1, d2, d3] ==> Matches(d, query)
    requires IndexRowAt(dao.blobIndex, IndexKey(d1.sourceId, d1.dataName, StripAndLower(query))) == []
    requires IndexRowAt(dao.blobIndex, IndexKey(d1.sourceId, d2.dataName, StripAndLower(query))) == []
    requires IndexRowAt(dao.blobIndex, IndexKey(d1.sourceId, d3.dataName, StripAndLower(query))) == []
    modifies dao
    ensures hits == Success([(d1.timestamp, d1.dataValue), (d2.timestamp, d2.dataValue), (d3.timestamp, d3.dataValue)])
  {
    ghost var index := dao.blobIndex;
    ghost var docs := IndexEach(dao, [d1, d2, d3], false);
    hits := dao.GetBlobsMultiDataByFreeTextIndex(d1.sourceId, [d1.dataName, d2.dataName, d3.dataName], query);
    ThreeNameSearch(index, dao.blobData, docs, d1, d2, d3, query);
  }

  /** The search of MultiNameScenario, over the three documents indexed in
      write order, each with its text stored under its blob row key. */
  lemma ThreeNameSearch(index: Index, blobs: Blobs, docs: seq<(TimestampedData, BlobKey)>,
                        d1: TimestampedData, d2: TimestampedData, d3: TimestampedData, query: string)
    requires IndexWellFormed(index)
    requires |docs| == 3 && docs[0].0 == d1 && docs[1].0 == d2 && docs[2].0 == d3
    requires BlobsHold(blobs, docs)
    requires d2.sourceId == d1.sourceId && d3.sourceId == d1.sourceId
    requires d1.dataName != d2.dataName && d2.dataName != d3.dataName && d1.dataName != d3.dataName
    requires d1.timestamp < d2.timestamp < d3.timestamp
    requires forall d :: d in [d1, d2, d3] ==> Matches(d, query)
    requires IndexRowAt(index, IndexKey(d1.sourceId, d1.dataName, StripAndLower(query))) == []
    requires IndexRowAt(index, IndexKey(d1.sourceId, d2.dataName, StripAndLower(query))) == []
    requires IndexRowAt(index, IndexKey(d1.sourceId, d3.dataName, StripAndLower(query))) == []
    ensures MultiSearch(IndexDocs(index, docs), blobs, d1.sourceId, [d1.dataName, d2.dataName, d3.dataName], query)
      == Success([(d1.timestamp, d1.dataValue), (d2.timestamp, d2.dataValue), (d3.timestamp, d3.dataValue)])
  {
    OneOfThree(index, blobs, docs, 0, query);
    OneOfThree(index, blobs, docs, 1, query);
    OneOfThree(index, blobs, docs, 2, query);
    MergeThree(IndexDocs(index, docs), blobs, d1, d2, d3, query);
  }

  /** The search of the data name of document i of three, each under its own
      data name of one source. */
  lemma OneOfThree(index: Index, blobs: Blobs, docs: seq<(TimestampedData, BlobKey)>, i: int, query: string)
    requires IndexWellFormed(index)
    requires |docs| == 3 && 0 <= i < 3
    requires forall j :: 0 <= j < |docs| ==> docs[j].1 in blobs && blobs[docs[j].1] == docs[j].0.dataValue
    requires forall j, k :: 0 <= j < k < |docs| ==> docs[j].0.dataName != docs[k].0.dataName
    requires forall d :: d in [docs[0].0, docs[1].0, docs[2].0] ==> Matches(d, query)
    requires IndexRowAt(index, IndexKey(docs[i].0.sourceId, docs[i].0.dataName, StripAndLower(query))) == []
    ensures Search(IndexDocs(index, docs), blobs, docs[i].0.sourceId, docs[i].0.dataName, query)
      == Success([(docs[i].0.timestamp, docs[i].0.dataValue)])
  {
    var d := docs[i].0;
    assert d in [docs[0].0, docs[1].0, docs[2].0];
    OneNameSearch(index, blobs, docs, i, d, query);
  }

  /** With every document of a source under its own data name, the search of
      document i's data name finds document i alone, when it matches. */
  lemma OneNameSearch(index: Index, blobs: Blobs, docs: seq<(TimestampedData, BlobKey)>, i: int,
                      d: TimestampedData, query: string)
    requires IndexWellFormed(index)
    requires 0 <= i < |docs| && docs[i].0 == d && Matches(d, query)
    requires forall j :: 0 <= j < |docs| ==> docs[j].1 in blobs && blobs[docs[j].1] == docs[j].0.dataValue
    requires forall j :: 0 <= j < |docs| && j != i ==> docs[j].0.dataName != d.dataName
    requires IndexRowAt(index, IndexKey(d.sourceId, d.dataName, StripAndLower(query))) == []
    ensures Search(IndexDocs(index, docs), blobs, d.sourceId, d.dataName, query)
      == Success([(d.timestamp, d.dataValue)])
  {
    SearchIsHitsWhere(index, blobs, docs, d.sourceId, d.dataName, query, [d]);
    HitsWhereOne(d, d' => Matches(d', query));
  }

  /** Merging three single hits in ascending time, one data name after the
      other, gives them in that order. */
  lemma MergeThree(index: Index, blobs: Blobs, d1: TimestampedData, d2: TimestampedData, d3: TimestampedData, query: string)
    requires d1.timestamp < d2.timestamp < d3.timestamp
    requires Search(index, blobs, d1.sourceId, d1.dataName, query) == Success([(d1.timestamp, d1.dataValue)])
    requires Search(index, blobs, d1.sourceId, d2.dataName, query) == Success([(d2.timestamp, d2.dataValue)])
    requires Search(index, blobs, d1.sourceId, d3.dataName, query) == Success([(d3.timestamp, d3.dataValue)])
    ensures MultiSearch(index, blobs, d1.sourceId, [d1.dataName, d2.dataName, d3.dataName], query)
      == Success([(d1.timestamp, d1.dataValue), (d2.timestamp, d2.dataValue), (d3.timestamp, d3.dataValue)])
  {
    var p1, p2, p3 := (d1.timestamp, d1.dataValue), (d2.timestamp, d2.dataValue), (d3.timestamp, d3.dataValue);
    MultiSearchThree(index, blobs, d1.sourceId, d1.dataName, d2.dataName, d3.dataName, query, [p1], [p2], [p3]);
    MergeInOrder(p1, p2, p3);
  }

  /** The merged search over three data names merges their hits one name
      after the other. */
  lemma MultiSearchThree(index: Index, blobs: Blobs, sourceId: string, x: string, y: string, z: string, query: string,
                         hx: seq<Point>, hy: seq<Point>, hz: seq<Point>)
    requires Search(index, blobs, sourceId, x, query) == Success(hx)
    requires Search(index, blobs, sourceId, y, query) == Success(hy)
    requires Search(index, blobs, sourceId, z, query) == Success(hz)
    ensures MultiSearch(index, blobs, sourceId, [x, y, z], query) == Success(Merge(Merge(Merge([], hx), hy), hz))
  {
    var n1, n2, n3 := [x], [x, y], [x, y, z];
    assert MultiSearch(index, blobs, sourceId, n1, query) == Success(Merge([], hx)) by {
      assert n1[..|n1| - 1] == [] && n1[|n1| - 1] == x;
      MultiSearchSnoc(index, blobs, sourceId, n1, query, [], hx);
    }
    assert MultiSearch(index, blobs, sourceId, n2, query) == Success(Merge(Merge([], hx), hy)) by {
      assert n2[..|n2| - 1] == n1 && n2[|n2| - 1] == y;
      MultiSearchSnoc(index, blobs, sourceId, n2, query, Merge([], hx), hy);
    }
    assert n3[..|n3| - 1] == n2 && n3[|n3| - 1] == z;
    MultiSearchSnoc(index, blobs, sourceId, n3, query, Merge(Merge([], hx), hy), hz);
  }

  /** The merged search over one more data name merges that name's hits into
      the hits of the names before it. */
  lemma MultiSearchSnoc(index: Index, blobs: Blobs, sourceId: string, names: seq<string>, query: string,
                        acc: seq<Point>, hits: seq<Point>)
    requires names != []
    requires MultiSearch(index, blobs, sourceId, names[..|names| - 1], query) == Success(acc)
    requires Search(index, blobs, sourceId, names[|names| - 1], query) == Success(hits)
    ensures MultiSearch(index, blobs, sourceId, names, query) == Success(Merge(acc, hits))
  {
  }

  /** Single hits merged one after another in ascending time stay in order. */
  lemma MergeInOrder(p1: Point, p2: Point, p3: Point)
    requires p1.0 < p2.0 < p3.0
    ensures Merge([], [p1]) == [p1]
    ensures Merge([p1], [p2]) == [p1, p2]
    ensures Merge([p1, p2], [p3]) == [p1, p2, p3]
  {
    assert [p1][1..] == [] && [p1, p2][1..] == [p2] && [p2][1..] == [];
    assert Merge([p1], [p2]) == [p1] + Merge([], [p2]);
    assert Merge([p2], [p3]) == [p2] + Merge([], [p3]);
    assert Merge([p1, p2], [p3]) == [p1] + Merge([p2], [p3]);
  }
}
