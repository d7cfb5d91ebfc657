/** The wide-column store's row semantics. Every column family of the store
    (HourlyTimestampedData, BlobDataIndex) is declared with comparator=timestamp,
    so a row is kept as its columns sorted by timestamp key: a sequence of
    (key, value) pairs with strictly ascending keys. Writing a column whose key
    is already present replaces its value (last write wins). */
module Columns {
  import opened Dto

  /** The keys strictly ascend along `row`. */
  ghost predicate StrictlyIncreasing<V>(row: seq<(int, V)>)
  {
    forall i, j :: 0 <= i < j < |row| ==> row[i].0 < row[j].0
  }

  /** The key-to-value view of a row. */
  ghost function ColumnsOf<V>(row: seq<(int, V)>): map<int, V>
  {
    if row == [] then map[] else ColumnsOf(row[1..])[row[0].0 := row[0].1]
  }

  /** The value of column `t`, if the view has one. */
  function Lookup<V>(m: map<int, V>, t: int): Option<V>
  {
    if t in m then Some(m[t]) else None
  }

  /** The columns of `m` whose keys lie in the closed interval [lo, hi]. */
  ghost function Restrict<V>(m: map<int, V>, lo: int, hi: int): map<int, V>
  {
    map t | t in m && lo <= t <= hi :: m[t]
  }

  lemma TailIncreasing<V>(row: seq<(int, V)>)
    requires StrictlyIncreasing(row) && row != []
    ensures StrictlyIncreasing(row[1..])
  {
    var tail := row[1..];
    forall i, j | 0 <= i < j < |tail| ensures tail[i].0 < tail[j].0 {
      assert tail[i] == row[i + 1] && tail[j] == row[j + 1];
    }
  }

  /** A sorted row holds exactly its keys, each with its value. */
  lemma {:induction false} ColumnsOfSpec<V>(row: seq<(int, V)>)
    requires StrictlyIncreasing(row)
    ensures forall i :: 0 <= i < |row| ==> row[i].0 in ColumnsOf(row) && ColumnsOf(row)[row[i].0] == row[i].1
    ensures forall t :: t in ColumnsOf(row) ==> exists i :: 0 <= i < |row| && row[i].0 == t
  {
    if row != [] {
      var tail := row[1..];
      TailIncreasing(row);
      ColumnsOfSpec(tail);
      forall i | 0 <= i < |row|
        ensures row[i].0 in ColumnsOf(row) && ColumnsOf(row)[row[i].0] == row[i].1
      {
        if i > 0 {
          assert row[i] == tail[i - 1];
        }
      }
      forall t | t in ColumnsOf(row)
        ensures exists i :: 0 <= i < |row| && row[i].0 == t
      {
        if t != row[0].0 {
          var j :| 0 <= j < |tail| && tail[j].0 == t;
          assert row[j + 1].0 == t;
        }
      }
    }
  }

  /** The first key of a sorted row is not among the keys of the rest. */
  lemma HeadNotInTail<V>(row: seq<(int, V)>)
    requires StrictlyIncreasing(row) && row != []
    ensures StrictlyIncreasing(row[1..])
    ensures row[0].0 !in ColumnsOf(row[1..])
    ensures ColumnsOf(row[1..]) == ColumnsOf(row) - {row[0].0}
  {
    var tail := row[1..];
    TailIncreasing(row);
    HeadKeyNotInTail(row);
    assert ColumnsOf(row) == ColumnsOf(tail)[row[0].0 := row[0].1];
    RemoveUpdated(ColumnsOf(tail), row[0].0, row[0].1);
  }

  lemma HeadKeyNotInTail<V>(row: seq<(int, V)>)
    requires StrictlyIncreasing(row) && row != []
    ensures row[0].0 !in ColumnsOf(row[1..])
  {
    var tail := row[1..];
    TailIncreasing(row);
    ColumnsOfSpec(tail);
    forall j | 0 <= j < |tail| ensures tail[j].0 != row[0].0 {
      assert tail[j] == row[j + 1];
    }
  }

  lemma RemoveUpdated<V>(m: map<int, V>, k: int, v: V)
    requires k !in m
    ensures m[k := v] - {k} == m
  {
  }

  lemma FirstKeyInView<V>(row: seq<(int, V)>)
    ensures row != [] ==> row[0].0 in ColumnsOf(row)
  {
  }

  lemma ConsIncreasing<V>(x: (int, V), row: seq<(int, V)>)
    requires StrictlyIncreasing(row)
    requires row == [] || x.0 < row[0].0
    ensures StrictlyIncreasing([x] + row)
    ensures ([x] + row)[1..] == row
  {
    var s := [x] + row;
    forall i, j | 0 <= i < j < |s|
      ensures s[i].0 < s[j].0
    {
      if i > 0 {
        assert s[i] == row[i - 1] && s[j] == row[j - 1];
      } else if j > 1 {
        assert s[j] == row[j - 1] && row[0].0 < row[j - 1].0;
      }
    }
  }

  /** Writes column (t, v) into a row: the row stays sorted and its view is the
      old view with t mapped to v, whether t was present or not. */
  function Insert<V>(row: seq<(int, V)>, t: int, v: V): (r: seq<(int, V)>)
    ensures |r| > 0 && r[0].0 == (if row == [] || t < row[0].0 then t else row[0].0)
    ensures StrictlyIncreasing(row) ==> StrictlyIncreasing(r) && ColumnsOf(r) == ColumnsOf(row)[t := v]
  {
    if row == [] then [(t, v)]
    else if t < row[0].0 then
      InsertFront(row, t, v);
      [(t, v)] + row
    else if t == row[0].0 then
      ReplaceFront(row, v);
      [(t, v)] + row[1..]
    else
      var tail := Insert(row[1..], t, v);
      InsertLater(row, t, v, tail);
      [row[0]] + tail
  }

  lemma InsertFront<V>(row: seq<(int, V)>, t: int, v: V)
    requires row != [] && t < row[0].0
    ensures StrictlyIncreasing(row) ==>
      StrictlyIncreasing([(t, v)] + row) && ColumnsOf([(t, v)] + row) == ColumnsOf(row)[t := v]
  {
    if StrictlyIncreasing(row) {
      ConsIncreasing((t, v), row);
    }
  }

  lemma ReplaceFront<V>(row: seq<(int, V)>, v: V)
    requires row != []
    ensures StrictlyIncreasing(row) ==>
      && StrictlyIncreasing([(row[0].0, v)] + row[1..])
      && ColumnsOf([(row[0].0, v)] + row[1..]) == ColumnsOf(row)[row[0].0 := v]
  {
    if StrictlyIncreasing(row) {
      var tail := row[1..];
      HeadNotInTail(row);
      assert |tail| > 0 ==> tail[0] == row[1];
      ConsIncreasing((row[0].0, v), tail);
    }
  }

  lemma InsertLater<V>(row: seq<(int, V)>, t: int, v: V, tail: seq<(int, V)>)
    requires row != [] && row[0].0 < t
    requires |tail| > 0 && tail[0].0 == (if |row| == 1 || t < row[1].0 then t else row[1].0)
    requires StrictlyIncreasing(row[1..]) ==>
      StrictlyIncreasing(tail) && ColumnsOf(tail) == ColumnsOf(row[1..])[t := v]
    ensures StrictlyIncreasing(row) ==>
      StrictlyIncreasing([row[0]] + tail) && ColumnsOf([row[0]] + tail) == ColumnsOf(row)[t := v]
  {
    if StrictlyIncreasing(row) {
      var rest := row[1..];
      HeadNotInTail(row);
      assert |rest| > 0 ==> rest[0] == row[1];
      ConsIncreasing(row[0], tail);
      assert ColumnsOf([row[0]] + tail) == ColumnsOf(tail)[row[0].0 := row[0].1];
      assert ColumnsOf(row) == ColumnsOf(rest)[row[0].0 := row[0].1];
      UpdateCommute(ColumnsOf(rest), row[0].0, row[0].1, t, v);
    }
  }

  /** The store's slice read: the columns of `row` with keys in the closed
      interval [lo, hi], in the row's (ascending) order. */
  function Slice<V>(row: seq<(int, V)>, lo: int, hi: int): (r: seq<(int, V)>)
    ensures forall i :: 0 <= i < |r| ==> r[i] in row && lo <= r[i].0 <= hi
    ensures StrictlyIncreasing(row) ==> StrictlyIncreasing(r) && ColumnsOf(r) == Restrict(ColumnsOf(row), lo, hi)
  {
    if row == [] then []
    else
      var tail := Slice(row[1..], lo, hi);
      SliceStep(row, lo, hi, tail);
      if lo <= row[0].0 <= hi then [row[0]] + tail else tail
  }

  lemma SliceStep<V>(row: seq<(int, V)>, lo: int, hi: int, tail: seq<(int, V)>)
    requires row != []
    requires forall i :: 0 <= i < |tail| ==> tail[i] in row[1..]
    requires StrictlyIncreasing(row[1..]) ==> StrictlyIncreasing(tail) && ColumnsOf(tail) == Restrict(ColumnsOf(row[1..]), lo, hi)
    ensures StrictlyIncreasing(row) ==>
      var r := if lo <= row[0].0 <= hi then [row[0]] + tail else tail;
      StrictlyIncreasing(r) && ColumnsOf(r) == Restrict(ColumnsOf(row), lo, hi)
  {
    if StrictlyIncreasing(row) {
      var rest := row[1..];
      assert StrictlyIncreasing(rest) && row[0].0 !in ColumnsOf(rest) by {
        HeadNotInTail(row);
      }
      assert ColumnsOf(row) == ColumnsOf(rest)[row[0].0 := row[0].1];
      if lo <= row[0].0 <= hi {
        assert StrictlyIncreasing([row[0]] + tail) by {
          forall i | 0 <= i < |tail| ensures row[0].0 < tail[i].0 {
            var j :| 0 <= j < |rest| && rest[j] == tail[i];
            assert rest[j] == row[j + 1];
          }
          ConsIncreasing(row[0], tail);
        }
        assert ColumnsOf([row[0]] + tail) == ColumnsOf(tail)[row[0].0 := row[0].1] by {
          assert ([row[0]] + tail)[1..] == tail;
        }
      }
      RestrictUpdate(ColumnsOf(rest), row[0].0, row[0].1, lo, hi);
    }
  }

  lemma RestrictUpdate<V>(m: map<int, V>, k: int, v: V, lo: int, hi: int)
    ensures Restrict(m[k := v], lo, hi) == if lo <= k <= hi then Restrict(m, lo, hi)[k := v] else Restrict(m, lo, hi)
  {
  }

  /** A slice whose interval covers every key of the row returns the whole row. */
  lemma {:induction false} SliceKeepsAll<V>(row: seq<(int, V)>, lo: int, hi: int)
    requires forall i :: 0 <= i < |row| ==> lo <= row[i].0 <= hi
    ensures Slice(row, lo, hi) == row
  {
    if row != [] {
      var tail := row[1..];
      forall i | 0 <= i < |tail| ensures lo <= tail[i].0 <= hi {
        assert tail[i] == row[i + 1];
      }
      SliceKeepsAll(tail, lo, hi);
      assert lo <= row[0].0 <= hi;
      assert Slice(row, lo, hi) == [row[0]] + Slice(tail, lo, hi);
      assert row == [row[0]] + tail;
    }
  }

  /** A slice whose interval excludes only the last key returns all but the
      last column. */
  lemma {:induction false} SliceDropsLast<V>(row: seq<(int, V)>, lo: int, hi: int)
    requires row != [] && hi < row[|row| - 1].0
    requires forall i :: 0 <= i < |row| - 1 ==> lo <= row[i].0 <= hi
    ensures Slice(row, lo, hi) == row[..|row| - 1]
  {
    if |row| > 1 {
      SliceDropsLast(row[1..], lo, hi);
      assert row[1..][..|row| - 2] == row[1..|row| - 1];
      assert row[..|row| - 1] == [row[0]] + row[1..|row| - 1];
    }
  }

  /** A slice whose interval excludes exactly the first and the last key
      returns the columns in between, in order. */
  lemma SliceDropsEnds<V>(row: seq<(int, V)>, lo: int, hi: int)
    requires |row| >= 2 && row[0].0 < lo && hi < row[|row| - 1].0
    requires forall i :: 1 <= i < |row| - 1 ==> lo <= row[i].0 <= hi
    ensures Slice(row, lo, hi) == row[1..|row| - 1]
  {
    SliceDropsLast(row[1..], lo, hi);
    assert row[1..][..|row| - 2] == row[1..|row| - 1];
  }

  /** Two sorted rows with the same view are the same row: a sorted row is
      determined by its columns. */
  lemma {:induction false} SortedUnique<V>(a: seq<(int, V)>, b: seq<(int, V)>)
    requires StrictlyIncreasing(a) && StrictlyIncreasing(b)
    requires ColumnsOf(a) == ColumnsOf(b)
    ensures a == b
    decreases |a|
  {
    if a != [] && b != [] {
      HeadsEqual(a, b);
      HeadNotInTail(a);
      HeadNotInTail(b);
      SortedUnique(a[1..], b[1..]);
      assert a == [a[0]] + a[1..];
      assert b == [b[0]] + b[1..];
    } else {
      FirstKeyInView(a);
      FirstKeyInView(b);
    }
  }

  /** The first key of a sorted row is its least key. */
  lemma FirstKeyLeast<V>(row: seq<(int, V)>)
    requires StrictlyIncreasing(row) && row != []
    ensures forall t :: t in ColumnsOf(row) ==> row[0].0 <= t
  {
    ColumnsOfSpec(row);
    forall t | t in ColumnsOf(row) ensures row[0].0 <= t {
      var i :| 0 <= i < |row| && row[i].0 == t;
    }
  }

  lemma HeadsEqual<V>(a: seq<(int, V)>, b: seq<(int, V)>)
    requires StrictlyIncreasing(a) && StrictlyIncreasing(b) && a != [] && b != []
    requires ColumnsOf(a) == ColumnsOf(b)
    ensures a[0] == b[0]
  {
    FirstKeyInView(a);
    FirstKeyInView(b);
    FirstKeyLeast(a);
    FirstKeyLeast(b);
    assert ColumnsOf(a)[a[0].0] == a[0].1;
    assert ColumnsOf(b)[b[0].0] == b[0].1;
  }

  /** Concatenating two sorted rows whose keys are separated gives a sorted row
      holding both sets of columns. */
  lemma AppendRows<V>(a: seq<(int, V)>, b: seq<(int, V)>)
    requires StrictlyIncreasing(a) && StrictlyIncreasing(b)
    requires forall i, j :: 0 <= i < |a| && 0 <= j < |b| ==> a[i].0 < b[j].0
    ensures StrictlyIncreasing(a + b)
    ensures ColumnsOf(a + b) == ColumnsOf(a) + ColumnsOf(b)
  {
    AppendIncreasing(a, b);
    AppendColumns(a, b);
  }

  lemma AppendIncreasing<V>(a: seq<(int, V)>, b: seq<(int, V)>)
    requires StrictlyIncreasing(a) && StrictlyIncreasing(b)
    requires forall i, j :: 0 <= i < |a| && 0 <= j < |b| ==> a[i].0 < b[j].0
    ensures StrictlyIncreasing(a + b)
  {
    var s := a + b;
    forall i, j | 0 <= i < j < |s|
      ensures s[i].0 < s[j].0
    {
      if j < |a| {
        assert s[i] == a[i] && s[j] == a[j];
      } else if i >= |a| {
        assert s[i] == b[i - |a|] && s[j] == b[j - |a|];
      } else {
        assert s[i] == a[i] && s[j] == b[j - |a|];
      }
    }
  }

  lemma {:induction false} AppendColumns<V>(a: seq<(int, V)>, b: seq<(int, V)>)
    requires StrictlyIncreasing(b)
    requires forall i, j :: 0 <= i < |a| && 0 <= j < |b| ==> a[i].0 < b[j].0
    ensures ColumnsOf(a + b) == ColumnsOf(a) + ColumnsOf(b)
  {
    if a == [] {
      assert a + b == b;
    } else {
      var a' := a[1..];
      assert ColumnsOf(a' + b) == ColumnsOf(a') + ColumnsOf(b) by {
        forall i, j | 0 <= i < |a'| && 0 <= j < |b| ensures a'[i].0 < b[j].0 {
          assert a'[i] == a[i + 1];
        }
        AppendColumns(a', b);
      }
      assert a[0].0 !in ColumnsOf(b) by {
        KeyBelowRow(a[0].0, b);
      }
      assert ColumnsOf(a + b) == ColumnsOf(a' + b)[a[0].0 := a[0].1] by {
        assert (a + b)[1..] == a' + b;
        assert (a + b)[0] == a[0];
      }
      assert ColumnsOf(a) == ColumnsOf(a')[a[0].0 := a[0].1];
      UpdateUnion(ColumnsOf(a'), ColumnsOf(b), a[0].0, a[0].1);
    }
  }

  /** A key below every key of a sorted row is not a column of it. */
  lemma KeyBelowRow<V>(k: int, row: seq<(int, V)>)
    requires StrictlyIncreasing(row)
    requires forall j :: 0 <= j < |row| ==> k < row[j].0
    ensures k !in ColumnsOf(row)
  {
    ColumnsOfSpec(row);
  }

  lemma UpdateCommute<V>(m: map<int, V>, k1: int, v1: V, k2: int, v2: V)
    requires k1 != k2
    ensures m[k2 := v2][k1 := v1] == m[k1 := v1][k2 := v2]
  {
  }

  lemma UpdateUnion<V>(m1: map<int, V>, m2: map<int, V>, k: int, v: V)
    requires k !in m2
    ensures (m1 + m2)[k := v] == m1[k := v] + m2
  {
  }
}
