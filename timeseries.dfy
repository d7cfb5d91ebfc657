/** The time-series store behind TimeSeriesCassandraDao: the column family
    HourlyTimestampedData holds one row per source, data name and hour, whose
    columns map timestamps (whole seconds) to values. A range query walks the
    hour rows from the hour of its start to the hour of its end and slices each
    row to the closed interval. */
module TimeSeries {
  import opened Dto
  import opened Columns

  /** Row key of an hourly row. A structured key: two different (source, data
      name, hour) triples never share a row. */
  datatype SeriesKey = SeriesKey(sourceId: string, dataName: string, hour: int)

  /** The hour bucket of a timestamp: whole seconds divided by the 3600
      seconds of an hour, rounding down (also for times before 1970). */
  function HourOf(t: int): int
  {
    t / 3600
  }

  type Row = seq<(int, string)>

  type Store = map<SeriesKey, Row>

  /** A row that was never written reads as empty. */
  function RowAt(store: Store, k: SeriesKey): Row
  {
    if k in store then store[k] else []
  }

  function KeyOf(d: TimestampedData): SeriesKey
  {
    SeriesKey(d.sourceId, d.dataName, HourOf(d.timestamp))
  }

  /** Every column of `row` lies in hour `hour`. */
  ghost predicate InBucket(row: Row, hour: int)
  {
    forall i :: 0 <= i < |row| ==> HourOf(row[i].0) == hour
  }

  /** Store invariant: every row is sorted by timestamp and holds only columns
      of its own hour. */
  ghost predicate WellFormed(store: Store)
  {
    forall k :: k in store ==> StrictlyIncreasing(store[k]) && InBucket(store[k], k.hour)
  }

  /** The value the series (sourceId, dataName) holds at time t, if any. */
  ghost function ValueAt(store: Store, sourceId: string, dataName: string, t: int): Option<string>
  {
    Lookup(ColumnsOf(RowAt(store, SeriesKey(sourceId, dataName, HourOf(t)))), t)
  }

  /** The series holds no point in [lo, hi]. */
  ghost predicate EmptyBetween(store: Store, sourceId: string, dataName: string, lo: int, hi: int)
  {
    forall t :: lo <= t <= hi ==> ValueAt(store, sourceId, dataName, t) == None
  }

  lemma HourMonotone(a: int, b: int)
    requires a <= b
    ensures HourOf(a) <= HourOf(b)
  {
  }

  lemma EarlierHourEarlierTime(a: int, b: int)
    requires HourOf(a) < HourOf(b)
    ensures a < b
  {
  }

  lemma {:induction false} InsertInBucket(row: Row, t: int, v: string, hour: int)
    requires StrictlyIncreasing(row) && InBucket(row, hour) && HourOf(t) == hour
    ensures InBucket(Insert(row, t, v), hour)
  {
    var r := Insert(row, t, v);
    ColumnsOfSpec(row);
    ColumnsOfSpec(r);
    forall i | 0 <= i < |r| ensures HourOf(r[i].0) == hour {
      assert r[i].0 in ColumnsOf(row)[t := v];
      if r[i].0 != t {
        var j :| 0 <= j < |row| && row[j].0 == r[i].0;
      }
    }
  }

  /** insert_timestamped_data: writes one column into the row of the data
      point's hour. The store stays well formed, the series now holds the new
      value at the point's timestamp (last write wins), and every other
      series and time keeps its value. */
  function Put(store: Store, d: TimestampedData): (r: Store)
    ensures WellFormed(store) ==> WellFormed(r)
    ensures WellFormed(store) ==>
      forall src, name, t :: ValueAt(r, src, name, t) ==
        (if src == d.sourceId && name == d.dataName && t == d.timestamp then Some(d.dataValue)
         else ValueAt(store, src, name, t))
  {
    var k := KeyOf(d);
    var row := RowAt(store, k);
    var r := store[k := Insert(row, d.timestamp, d.dataValue)];
    PutStep(store, d, r);
    r
  }

  lemma PutStep(store: Store, d: TimestampedData, r: Store)
    requires r == store[KeyOf(d) := Insert(RowAt(store, KeyOf(d)), d.timestamp, d.dataValue)]
    ensures WellFormed(store) ==> WellFormed(r)
    ensures WellFormed(store) ==>
      forall src, name, t :: ValueAt(r, src, name, t) ==
        (if src == d.sourceId && name == d.dataName && t == d.timestamp then Some(d.dataValue)
         else ValueAt(store, src, name, t))
  {
    if WellFormed(store) {
      var k := KeyOf(d);
      var row := RowAt(store, k);
      InsertInBucket(row, d.timestamp, d.dataValue, k.hour);
      assert ColumnsOf(RowAt(r, k)) == ColumnsOf(row)[d.timestamp := d.dataValue];
    }
  }

  /** The data points written one after the other, in order. */
  function PutAll(store: Store, ds: seq<TimestampedData>): (r: Store)
    ensures WellFormed(store) ==> WellFormed(r)
  {
    if ds == [] then store else Put(PutAll(store, ds[..|ds| - 1]), ds[|ds| - 1])
  }

  /** The value of the last data point of `ds` for this series and time. */
  function LastWrite(ds: seq<TimestampedData>, sourceId: string, dataName: string, t: int): Option<string>
  {
    if ds == [] then None
    else
      var d := ds[|ds| - 1];
      if d.sourceId == sourceId && d.dataName == dataName && d.timestamp == t then Some(d.dataValue)
      else LastWrite(ds[..|ds| - 1], sourceId, dataName, t)
  }

  /** After a sequence of writes the series holds, at every time, the value of
      the last write to that time, or its earlier value where none was written. */
  lemma {:induction false} PutAllValue(store: Store, ds: seq<TimestampedData>, sourceId: string, dataName: string, t: int)
    requires WellFormed(store)
    ensures ValueAt(PutAll(store, ds), sourceId, dataName, t) ==
      if LastWrite(ds, sourceId, dataName, t).Some? then LastWrite(ds, sourceId, dataName, t)
      else ValueAt(store, sourceId, dataName, t)
  {
    if ds != [] {
      PutAllValue(store, ds[..|ds| - 1], sourceId, dataName, t);
    }
  }

  // ---------------------------------------------------------------------------
  // Range query.
  // ---------------------------------------------------------------------------

  /** The columns in [lo, hi] of the hour rows from hour `h` to the hour of `hi`. */
  function RangeFrom(store: Store, sourceId: string, dataName: string, lo: int, hi: int, h: int): Row
    decreases HourOf(hi) + 1 - h
  {
    if h > HourOf(hi) then []
    else Slice(RowAt(store, SeriesKey(sourceId, dataName, h)), lo, hi) + RangeFrom(store, sourceId, dataName, lo, hi, h + 1)
  }

  /** get_timetamped_data_range over the hour rows of the interval. */
  function RangeQuery(store: Store, sourceId: string, dataName: string, lo: int, hi: int): Row
  {
    RangeFrom(store, sourceId, dataName, lo, hi, HourOf(lo))
  }

  /** `r` lists, in strictly ascending time, exactly the points of the series
      in the closed interval [lo, hi], each with its value. */
  ghost predicate IsRangeOf(r: Row, store: Store, sourceId: string, dataName: string, lo: int, hi: int)
  {
    && StrictlyIncreasing(r)
    && forall t :: Lookup(ColumnsOf(r), t) == if lo <= t <= hi then ValueAt(store, sourceId, dataName, t) else None
  }

  /** The slice of hour row `h`: sorted, within hour h, and holding the
      series' points of that hour inside [lo, hi]. */
  lemma SliceOfBucket(store: Store, sourceId: string, dataName: string, lo: int, hi: int, h: int)
    requires WellFormed(store)
    ensures var a := Slice(RowAt(store, SeriesKey(sourceId, dataName, h)), lo, hi);
      && StrictlyIncreasing(a)
      && (forall i :: 0 <= i < |a| ==> HourOf(a[i].0) == h)
      && (forall t :: Lookup(ColumnsOf(a), t) ==
            if lo <= t <= hi && HourOf(t) == h then ValueAt(store, sourceId, dataName, t) else None)
  {
    var k := SeriesKey(sourceId, dataName, h);
    var row := RowAt(store, k);
    var a := Slice(row, lo, hi);
    assert StrictlyIncreasing(row) && InBucket(row, h);
    ColumnsOfSpec(row);
    forall i | 0 <= i < |a| ensures HourOf(a[i].0) == h {
      var j :| 0 <= j < |row| && row[j] == a[i];
    }
    forall t | t in ColumnsOf(row) ensures HourOf(t) == h {
      var j :| 0 <= j < |row| && row[j].0 == t;
    }
  }

  lemma LookupUnion<V>(m1: map<int, V>, m2: map<int, V>, t: int)
    ensures Lookup(m1 + m2, t) == if t in m2 then Some(m2[t]) else Lookup(m1, t)
  {
  }

  lemma {:induction false} RangeFromSpec(store: Store, sourceId: string, dataName: string, lo: int, hi: int, h: int)
    requires WellFormed(store)
    ensures var r := RangeFrom(store, sourceId, dataName, lo, hi, h);
      && StrictlyIncreasing(r)
      && (forall i :: 0 <= i < |r| ==> h <= HourOf(r[i].0))
      && (forall t :: Lookup(ColumnsOf(r), t) ==
            if lo <= t <= hi && h <= HourOf(t) then ValueAt(store, sourceId, dataName, t) else None)
    decreases HourOf(hi) + 1 - h
  {
    var r := RangeFrom(store, sourceId, dataName, lo, hi, h);
    if h > HourOf(hi) {
      forall t | lo <= t <= hi ensures HourOf(t) < h {
        HourMonotone(t, hi);
      }
    } else {
      var a := Slice(RowAt(store, SeriesKey(sourceId, dataName, h)), lo, hi);
      var b := RangeFrom(store, sourceId, dataName, lo, hi, h + 1);
      SliceOfBucket(store, sourceId, dataName, lo, hi, h);
      RangeFromSpec(store, sourceId, dataName, lo, hi, h + 1);
      assert r == a + b;
      JoinBuckets(store, sourceId, dataName, lo, hi, h, a, b);
    }
  }

  /** The slice of hour `h` followed by the range from hour h + 1 is the range
      from hour h. */
  lemma JoinBuckets(store: Store, sourceId: string, dataName: string, lo: int, hi: int, h: int, a: Row, b: Row)
    requires StrictlyIncreasing(a) && StrictlyIncreasing(b)
    requires forall i :: 0 <= i < |a| ==> HourOf(a[i].0) == h
    requires forall j :: 0 <= j < |b| ==> h + 1 <= HourOf(b[j].0)
    requires
      forall t :: Lookup(ColumnsOf(a), t) ==
        if lo <= t <= hi && HourOf(t) == h then ValueAt(store, sourceId, dataName, t) else None
    requires
      forall t :: Lookup(ColumnsOf(b), t) ==
        if lo <= t <= hi && h + 1 <= HourOf(t) then ValueAt(store, sourceId, dataName, t) else None
    ensures StrictlyIncreasing(a + b)
    ensures forall i :: 0 <= i < |a + b| ==> h <= HourOf((a + b)[i].0)
    ensures
      forall t :: Lookup(ColumnsOf(a + b), t) ==
        if lo <= t <= hi && h <= HourOf(t) then ValueAt(store, sourceId, dataName, t) else None
  {
    forall i, j | 0 <= i < |a| && 0 <= j < |b| ensures a[i].0 < b[j].0 {
      EarlierHourEarlierTime(a[i].0, b[j].0);
    }
    AppendRows(a, b);
    var r := a + b;
    forall i | 0 <= i < |r| ensures h <= HourOf(r[i].0) {
      if i < |a| {
        assert r[i] == a[i];
      } else {
        assert r[i] == b[i - |a|];
      }
    }
    forall t ensures Lookup(ColumnsOf(r), t) ==
      if lo <= t <= hi && h <= HourOf(t) then ValueAt(store, sourceId, dataName, t) else None
    {
      LookupUnion(ColumnsOf(a), ColumnsOf(b), t);
      assert Lookup(ColumnsOf(b), t) ==
        if lo <= t <= hi && h + 1 <= HourOf(t) then ValueAt(store, sourceId, dataName, t) else None;
    }
  }

  /** The range query returns exactly the points of the closed interval, in
      ascending order. */
  lemma RangeQuerySpec(store: Store, sourceId: string, dataName: string, lo: int, hi: int)
    requires WellFormed(store)
    ensures IsRangeOf(RangeQuery(store, sourceId, dataName, lo, hi), store, sourceId, dataName, lo, hi)
  {
    RangeFromSpec(store, sourceId, dataName, lo, hi, HourOf(lo));
    forall t | lo <= t ensures HourOf(lo) <= HourOf(t) {
      HourMonotone(lo, t);
    }
  }

  /** A range result is determined by the store: any two are equal. */
  lemma RangeUnique(r1: Row, r2: Row, store: Store, sourceId: string, dataName: string, lo: int, hi: int)
    requires IsRangeOf(r1, store, sourceId, dataName, lo, hi)
    requires IsRangeOf(r2, store, sourceId, dataName, lo, hi)
    ensures r1 == r2
  {
    forall t ensures t in ColumnsOf(r1) <==> t in ColumnsOf(r2) {
      assert Lookup(ColumnsOf(r1), t) == Lookup(ColumnsOf(r2), t);
    }
    forall t | t in ColumnsOf(r1) ensures ColumnsOf(r1)[t] == ColumnsOf(r2)[t] {
      assert Lookup(ColumnsOf(r1), t) == Lookup(ColumnsOf(r2), t);
    }
    assert ColumnsOf(r1) == ColumnsOf(r2);
    SortedUnique(r1, r2);
  }

  // ---------------------------------------------------------------------------
  // Reading back what was written.
  // ---------------------------------------------------------------------------

  /** The (timestamp, value) pairs of a list of data points, in list order. */
  function PointsOf(ds: seq<TimestampedData>): (r: Row)
    ensures |r| == |ds|
    ensures forall i :: 0 <= i < |ds| ==> r[i] == (ds[i].timestamp, ds[i].dataValue)
  {
    if ds == [] then [] else PointsOf(ds[..|ds| - 1]) + [(ds[|ds| - 1].timestamp, ds[|ds| - 1].dataValue)]
  }

  /** All points belong to one series and their timestamps strictly ascend. */
  ghost predicate AscendingSeries(ds: seq<TimestampedData>, sourceId: string, dataName: string)
  {
    && (forall i :: 0 <= i < |ds| ==> ds[i].sourceId == sourceId && ds[i].dataName == dataName)
    && (forall i, j :: 0 <= i < j < |ds| ==> ds[i].timestamp < ds[j].timestamp)
  }

  /** For an ascending series, its points read as a row are exactly what the
      last write to each time left behind. */
  lemma {:induction false} ColumnsOfPoints(ds: seq<TimestampedData>, sourceId: string, dataName: string, t: int)
    requires AscendingSeries(ds, sourceId, dataName)
    ensures StrictlyIncreasing(PointsOf(ds))
    ensures Lookup(ColumnsOf(PointsOf(ds)), t) == LastWrite(ds, sourceId, dataName, t)
  {
    if ds != [] {
      var init := ds[..|ds| - 1];
      var d := ds[|ds| - 1];
      var a := PointsOf(init);
      var b := [(d.timestamp, d.dataValue)];
      assert StrictlyIncreasing(a) && Lookup(ColumnsOf(a), t) == LastWrite(init, sourceId, dataName, t) by {
        ColumnsOfPoints(init, sourceId, dataName, t);
      }
      assert PointsOf(ds) == a + b;
      assert StrictlyIncreasing(a + b) && ColumnsOf(a + b) == ColumnsOf(a) + ColumnsOf(b) by {
        forall i, j | 0 <= i < |a| && 0 <= j < |b| ensures a[i].0 < b[j].0 {
          assert a[i].0 == ds[i].timestamp;
        }
        AppendRows(a, b);
      }
      assert ColumnsOf(b) == map[d.timestamp := d.dataValue];
    }
  }

  /** Writing an ascending series into a store that holds no point of that
      series in [lo, hi] and then querying [lo, hi] returns exactly the written
      points that lie in the interval, in the order they were written. */
  lemma RangeAfterInserts(store: Store, ds: seq<TimestampedData>, sourceId: string, dataName: string, lo: int, hi: int)
    requires WellFormed(store)
    requires EmptyBetween(store, sourceId, dataName, lo, hi)
    requires AscendingSeries(ds, sourceId, dataName)
    ensures RangeQuery(PutAll(store, ds), sourceId, dataName, lo, hi) == Slice(PointsOf(ds), lo, hi)
  {
    var after := PutAll(store, ds);
    var pts := PointsOf(ds);
    var expected := Slice(pts, lo, hi);
    ColumnsOfPoints(ds, sourceId, dataName, lo);
    forall t ensures Lookup(ColumnsOf(expected), t) ==
      if lo <= t <= hi then ValueAt(after, sourceId, dataName, t) else None
    {
      ColumnsOfPoints(ds, sourceId, dataName, t);
      PutAllValue(store, ds, sourceId, dataName, t);
    }
    RangeQuerySpec(after, sourceId, dataName, lo, hi);
    RangeUnique(RangeQuery(after, sourceId, dataName, lo, hi), expected, after, sourceId, dataName, lo, hi);
  }

  /** The full-range case: when every written point lies in [lo, hi], the
      query returns all of them, one result per point, in order. */
  lemma FullRangeAfterInserts(store: Store, ds: seq<TimestampedData>, sourceId: string, dataName: string, lo: int, hi: int)
    requires WellFormed(store)
    requires EmptyBetween(store, sourceId, dataName, lo, hi)
    requires AscendingSeries(ds, sourceId, dataName)
    requires forall i :: 0 <= i < |ds| ==> lo <= ds[i].timestamp <= hi
    ensures var r := RangeQuery(PutAll(store, ds), sourceId, dataName, lo, hi);
      && |r| == |ds|
      && forall i :: 0 <= i < |ds| ==> r[i] == (ds[i].timestamp, ds[i].dataValue)
  {
    RangeAfterInserts(store, ds, sourceId, dataName, lo, hi);
    SliceKeepsAll(PointsOf(ds), lo, hi);
  }

  /** The narrowed-range case: when [lo, hi] excludes exactly the first and the
      last written point, the query returns the other n - 2 points, the i-th
      result being the (i + 1)-th point written. */
  lemma InnerRangeAfterInserts(store: Store, ds: seq<TimestampedData>, sourceId: string, dataName: string, lo: int, hi: int)
    requires WellFormed(store)
    requires EmptyBetween(store, sourceId, dataName, lo, hi)
    requires AscendingSeries(ds, sourceId, dataName)
    requires |ds| >= 2 && ds[0].timestamp < lo && hi < ds[|ds| - 1].timestamp
    requires forall i :: 1 <= i < |ds| - 1 ==> lo <= ds[i].timestamp <= hi
    ensures var r := RangeQuery(PutAll(store, ds), sourceId, dataName, lo, hi);
      && |r| == |ds| - 2
      && forall i :: 0 <= i < |r| ==> r[i] == (ds[i + 1].timestamp, ds[i + 1].dataValue)
  {
    var pts := PointsOf(ds);
    assert RangeQuery(PutAll(store, ds), sourceId, dataName, lo, hi) == Slice(pts, lo, hi) by {
      RangeAfterInserts(store, ds, sourceId, dataName, lo, hi);
    }
    assert Slice(pts, lo, hi) == pts[1..|pts| - 1] by {
      SliceDropsEnds(pts, lo, hi);
    }
  }
}
