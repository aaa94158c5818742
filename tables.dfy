/**
 * Wide tables as the pipeline holds them: one row per key (a timestamp in a raw
 * source, a calendar day after aggregation) and one column per city, modelled
 * column by column as pandas stores them. A missing cell is `None` (NaN).
 */
module Tables {
  import opened Wrappers
  import opened Calendar

  type City = string

  predicate Distinct<T(==)>(s: seq<T>) {
    forall i, j :: 0 <= i < j < |s| ==> s[i] != s[j]
  }

  predicate StrictlyIncreasing(s: seq<int>) {
    forall i, j :: 0 <= i < j < |s| ==> s[i] < s[j]
  }

  predicate Disjoint(a: seq<City>, b: seq<City>) {
    forall c :: c in a ==> c !in b
  }

  /** A wide table: `keys` index the rows, `data[c]` is the column of city `c`. */
  datatype Table<K, V> = Table(keys: seq<K>, columns: seq<City>, data: map<City, seq<Option<V>>>) {
    /** Every listed column is present, has one cell per row, and column names are unique. */
    predicate WellFormed() {
      && (forall c :: c in columns ==> c in data)
      && (forall c :: c in data ==> c in columns && |data[c]| == |keys|)
      && Distinct(columns)
    }
  }

  /** A source as read from a file: one row per (sub-daily) timestamp. */
  type Sheet<V> = Table<Timestamp, V>

  /** An aggregated table: one row per calendar day. */
  type Daily<V> = Table<Date, V>

  /** A daily table whose rows are in strictly ascending date order, as `groupby` leaves them. */
  predicate IsDaily<V>(t: Daily<V>) {
    t.WellFormed() && StrictlyIncreasing(t.keys)
  }

  predicate HasColumns<K, V>(t: Table<K, V>, cols: seq<City>) {
    forall c :: c in cols ==> c in t.data
  }

  // ---------------------------------------------------------------- dates

  /** The dates of a strictly increasing pair of date lists, merged in order without repeats. */
  function UnionDates(a: seq<Date>, b: seq<Date>): (r: seq<Date>)
    requires StrictlyIncreasing(a) && StrictlyIncreasing(b)
    ensures StrictlyIncreasing(r)
    ensures forall d :: d in r <==> d in a || d in b
    decreases |a| + |b|
  {
    if a == [] then b
    else if b == [] then a
    else if a[0] < b[0] then
      StrictAbove(a[1..], a[0]);
      StrictAbove(b, a[0]);
      PrependStrict(a[0], UnionDates(a[1..], b))
    else if b[0] < a[0] then
      StrictAbove(a, b[0]);
      StrictAbove(b[1..], b[0]);
      PrependStrict(b[0], UnionDates(a, b[1..]))
    else
      StrictAbove(a[1..], a[0]);
      StrictAbove(b[1..], a[0]);
      PrependStrict(a[0], UnionDates(a[1..], b[1..]))
  }

  /** Every element of a strictly increasing list that starts above `x` is above `x`. */
  lemma StrictAbove(s: seq<int>, x: int)
    requires StrictlyIncreasing(s)
    requires s != [] ==> x < s[0]
    ensures forall y :: y in s ==> x < y
  {
    forall y | y in s ensures x < y {
      var k :| 0 <= k < |s| && s[k] == y;
      assert k == 0 || s[0] < s[k];
    }
  }

  function PrependStrict(x: int, s: seq<int>): (r: seq<int>)
    requires StrictlyIncreasing(s) && forall y :: y in s ==> x < y
    ensures r == [x] + s && StrictlyIncreasing(r)
  {
    assert forall j :: 0 <= j < |s| ==> s[j] in s;
    [x] + s
  }

  /** Some row of `stamps` falls on calendar day `d`. */
  predicate HasDate(stamps: seq<Timestamp>, d: Date) {
    exists i :: 0 <= i < |stamps| && stamps[i].date == d
  }

  /** The `groupby("date")` keys: each calendar day of the timestamps once, ascending. */
  function DistinctDates(stamps: seq<Timestamp>): (r: seq<Date>)
    ensures StrictlyIncreasing(r)
    ensures forall d :: d in r <==> HasDate(stamps, d)
  {
    if stamps == [] then []
    else
      var init := stamps[..|stamps| - 1];
      var r := UnionDates(DistinctDates(init), [stamps[|stamps| - 1].date]);
      assert forall d :: HasDate(stamps, d) <==> HasDate(init, d) || d == stamps[|stamps| - 1].date by {
        forall d ensures HasDate(stamps, d) <==> HasDate(init, d) || d == stamps[|stamps| - 1].date {
          if HasDate(stamps, d) {
            var i :| 0 <= i < |stamps| && stamps[i].date == d;
            if i < |init| { assert init[i] == stamps[i]; }
          }
          if HasDate(init, d) {
            var i :| 0 <= i < |init| && init[i].date == d;
            assert stamps[i] == init[i];
          }
        }
      }
      r
  }

  /** The position of `x` in a list of distinct dates. */
  function IndexOf(s: seq<Date>, x: Date): (i: nat)
    requires x in s
    ensures i < |s| && s[i] == x
    ensures forall j :: 0 <= j < i ==> s[j] != x
  {
    if s[0] == x then 0 else 1 + IndexOf(s[1..], x)
  }

  /** The cell of city `c` on day `d`; null when the table has no such column or day. */
  function At<V>(t: Daily<V>, c: City, d: Date): Option<V>
    requires t.WellFormed()
  {
    if c in t.data && d in t.keys then t.data[c][IndexOf(t.keys, d)] else None
  }

  // ---------------------------------------------------------------- daily aggregation

  /** The non-null samples of one column on calendar day `d`, in row order. */
  function SamplesOn<V>(stamps: seq<Timestamp>, col: seq<Option<V>>, d: Date): (r: seq<V>)
    requires |col| == |stamps|
    ensures |r| <= |stamps|
  {
    if stamps == [] then []
    else
      var n := |stamps| - 1;
      var init := SamplesOn(stamps[..n], col[..n], d);
      if stamps[n].date == d && col[n].Some? then init + [col[n].value] else init
  }

  /** The samples of day `d` are exactly the non-null cells of the rows stamped on that day. */
  lemma {:induction false} SamplesOnMembers<V>(stamps: seq<Timestamp>, col: seq<Option<V>>, d: Date)
    requires |col| == |stamps|
    ensures var r := SamplesOn(stamps, col, d);
      && (forall i :: 0 <= i < |stamps| && stamps[i].date == d && col[i].Some? ==> col[i].value in r)
      && (forall k :: 0 <= k < |r| ==> exists i :: 0 <= i < |stamps| && stamps[i].date == d && col[i] == Some(r[k]))
  {
    if stamps != [] {
      var n := |stamps| - 1;
      SamplesOnMembers(stamps[..n], col[..n], d);
      assert forall i :: 0 <= i < n ==> stamps[..n][i] == stamps[i] && col[..n][i] == col[i];
    }
  }

  /** The positions of the rows stamped on day `d` whose cell is not null, in increasing order. */
  function DayRows<V>(stamps: seq<Timestamp>, col: seq<Option<V>>, d: Date): (ix: seq<int>)
    requires |col| == |stamps|
    ensures forall k :: 0 <= k < |ix| ==> 0 <= ix[k] < |stamps| && stamps[ix[k]].date == d && col[ix[k]].Some?
    ensures forall k, l :: 0 <= k < l < |ix| ==> ix[k] < ix[l]
    ensures forall i :: 0 <= i < |stamps| && stamps[i].date == d && col[i].Some? ==> i in ix
  {
    if stamps == [] then []
    else
      var n := |stamps| - 1;
      var init := DayRows(stamps[..n], col[..n], d);
      assert forall i :: 0 <= i < n ==> stamps[..n][i] == stamps[i] && col[..n][i] == col[i];
      if stamps[n].date == d && col[n].Some? then init + [n] else init
  }

  /**
   * The samples of day `d` are the cells of exactly those rows, one sample per
   * row and in row order, so repeated readings weigh in the mean as often as
   * they occur.
   */
  lemma {:induction false} SamplesOnInOrder<V>(stamps: seq<Timestamp>, col: seq<Option<V>>, d: Date)
    requires |col| == |stamps|
    ensures |SamplesOn(stamps, col, d)| == |DayRows(stamps, col, d)|
    ensures forall k :: 0 <= k < |SamplesOn(stamps, col, d)| ==>
      SamplesOn(stamps, col, d)[k] == col[DayRows(stamps, col, d)[k]].value
  {
    if stamps != [] {
      var n := |stamps| - 1;
      SamplesOnInOrder(stamps[..n], col[..n], d);
      assert forall i :: 0 <= i < n ==> col[..n][i] == col[i];
    }
  }

  /** The samples of a column are those of all rows but the last, then the last row's when it qualifies. */
  lemma SamplesOnLast<V>(stamps: seq<Timestamp>, col: seq<Option<V>>, d: Date)
    requires |col| == |stamps| && stamps != []
    ensures var n := |stamps| - 1;
      SamplesOn(stamps, col, d) ==
        if stamps[n].date == d && col[n].Some? then SamplesOn(stamps[..n], col[..n], d) + [col[n].value]
        else SamplesOn(stamps[..n], col[..n], d)
  {
  }

  /**
   * `df.groupby("date")[cols].agg(reduce)`: one row per distinct calendar day of
   * the source, ascending, and in each selected city column the reduction of
   * that day's non-null samples. Selecting a column the source lacks raises
   * pandas' KeyError.
   */
  function Aggregate<V>(s: Sheet<V>, cols: seq<City>, reduce: seq<V> -> Option<V>): (r: Result<Daily<V>>)
    requires s.WellFormed() && Distinct(cols)
    ensures r.Ok? <==> HasColumns(s, cols)
    ensures r.Ok? ==> IsDaily(r.value) && r.value.columns == cols
    ensures r.Ok? ==> forall d :: d in r.value.keys <==> HasDate(s.keys, d)
    ensures r.Ok? ==> forall c, j :: c in cols && 0 <= j < |r.value.keys| ==>
      r.value.data[c][j] == reduce(SamplesOn(s.keys, s.data[c], r.value.keys[j]))
  {
    if !HasColumns(s, cols) then Err(MissingColumn)
    else
      var dates := DistinctDates(s.keys);
      Ok(Table(dates, cols,
        map c | c in cols :: seq(|dates|, j requires 0 <= j < |dates| => reduce(SamplesOn(s.keys, s.data[c], dates[j])))))
  }

  // ---------------------------------------------------------------- outer merge on date

  /**
   * `a.merge(b, on="date", how="outer")` for two daily tables over disjoint city
   * sets: the days of either, in order, and the columns of `a` followed by those
   * of `b`, each carrying its own source's value on each day.
   */
  function OuterMerge<V>(a: Daily<V>, b: Daily<V>): (r: Daily<V>)
    requires IsDaily(a) && IsDaily(b) && Disjoint(a.columns, b.columns)
    ensures IsDaily(r) && r.columns == a.columns + b.columns
    ensures forall d :: d in r.keys <==> d in a.keys || d in b.keys
    ensures forall c, d :: c in a.data ==> At(r, c, d) == At(a, c, d)
    ensures forall c, d :: c in b.data ==> At(r, c, d) == At(b, c, d)
  {
    var dates := UnionDates(a.keys, b.keys);
    var cols := a.columns + b.columns;
    var r := Table(dates, cols,
      map c | c in cols :: seq(|dates|, j requires 0 <= j < |dates| =>
        if c in a.data then At(a, c, dates[j]) else At(b, c, dates[j])));
    assert Distinct(cols) by {
      forall i, j | 0 <= i < j < |cols| ensures cols[i] != cols[j] {
        if i < |a.columns| && j >= |a.columns| {
          assert cols[i] in a.columns && cols[j] in b.columns;
        }
      }
    }
    assert r.WellFormed();
    forall c, d | c in a.data || c in b.data
      ensures At(r, c, d) == if c in a.data then At(a, c, d) else At(b, c, d)
    {
      if d in dates {
        var j := IndexOf(dates, d);
        assert r.data[c][j] == if c in a.data then At(a, c, d) else At(b, c, d);
      }
    }
    r
  }

  /** A day present in only one source of an outer merge is null for every city of the other. */
  lemma OuterMergeOneSided<V>(a: Daily<V>, b: Daily<V>, d: Date)
    requires IsDaily(a) && IsDaily(b) && Disjoint(a.columns, b.columns)
    ensures d in b.keys && d !in a.keys ==>
      forall c :: c in a.columns ==> At(OuterMerge(a, b), c, d) == None
    ensures d in a.keys && d !in b.keys ==>
      forall c :: c in b.columns ==> At(OuterMerge(a, b), c, d) == None
  {
  }

  // ---------------------------------------------------------------- melt

  /** One row of a long table before the joins: a (date, City) key and the value. */
  datatype Cell<V> = Cell(date: Date, city: City, value: Option<V>)

  predicate SameKeyCells<V>(x: Cell<V>, y: Cell<V>) {
    x.date == y.date && x.city == y.city
  }

  /** No two cells share a (date, City) key. */
  predicate UniqueCells<V>(cells: seq<Cell<V>>) {
    forall i, j :: 0 <= i < j < |cells| ==> !SameKeyCells(cells[i], cells[j])
  }

  function MeltColumn<V>(t: Daily<V>, c: City): (r: seq<Cell<V>>)
    requires t.WellFormed() && c in t.data
    ensures |r| == |t.keys|
    ensures forall j :: 0 <= j < |r| ==> r[j] == Cell(t.keys[j], c, t.data[c][j])
  {
    seq(|t.keys|, j requires 0 <= j < |t.keys| => Cell(t.keys[j], c, t.data[c][j]))
  }

  function MeltColumns<V>(t: Daily<V>, cols: seq<City>): seq<Cell<V>>
    requires t.WellFormed() && HasColumns(t, cols)
  {
    if cols == [] then [] else MeltColumn(t, cols[0]) + MeltColumns(t, cols[1..])
  }

  /** `daily.melt(id_vars=["date"], var_name="City")`: column by column, each day in row order. */
  function Melt<V>(t: Daily<V>): seq<Cell<V>>
    requires t.WellFormed()
  {
    MeltColumns(t, t.columns)
  }

  /** Every melted cell is a cell of the table, read at its own key. */
  lemma {:induction false} MeltColumnsSound<V>(t: Daily<V>, cols: seq<City>)
    requires IsDaily(t) && HasColumns(t, cols)
    ensures forall i :: 0 <= i < |MeltColumns(t, cols)| ==>
      var x := MeltColumns(t, cols)[i];
      x.city in cols && x.date in t.keys && x.value == At(t, x.city, x.date)
  {
    if cols != [] {
      MeltColumnsSound(t, cols[1..]);
      var head := MeltColumn(t, cols[0]);
      forall j | 0 <= j < |head|
        ensures head[j].value == At(t, head[j].city, head[j].date)
      {
        assert IndexOf(t.keys, t.keys[j]) == j;
      }
    }
  }

  /** Every (date, city) of the table is melted into some cell. */
  lemma {:induction false} MeltColumnsComplete<V>(t: Daily<V>, cols: seq<City>, c: City, j: nat)
    requires t.WellFormed() && HasColumns(t, cols) && c in cols && j < |t.keys|
    ensures exists i :: (0 <= i < |MeltColumns(t, cols)| &&
      MeltColumns(t, cols)[i] == Cell(t.keys[j], c, t.data[c][j]))
  {
    var head := MeltColumn(t, cols[0]);
    if cols[0] == c {
      assert MeltColumns(t, cols)[j] == head[j];
    } else {
      MeltColumnsComplete(t, cols[1..], c, j);
      var i :| 0 <= i < |MeltColumns(t, cols[1..])| &&
        MeltColumns(t, cols[1..])[i] == Cell(t.keys[j], c, t.data[c][j]);
      assert MeltColumns(t, cols)[|head| + i] == MeltColumns(t, cols[1..])[i];
    }
  }

  /** Distinct columns and distinct days give distinct (date, City) keys. */
  lemma {:induction false} MeltColumnsUnique<V>(t: Daily<V>, cols: seq<City>)
    requires IsDaily(t) && HasColumns(t, cols) && Distinct(cols)
    ensures UniqueCells(MeltColumns(t, cols))
  {
    if cols != [] {
      MeltColumnsUnique(t, cols[1..]);
      MeltColumnsSound(t, cols[1..]);
      var head := MeltColumn(t, cols[0]);
      var tail := MeltColumns(t, cols[1..]);
      var all := MeltColumns(t, cols);
      assert cols[0] !in cols[1..] by {
        forall k | 0 <= k < |cols[1..]| ensures cols[1..][k] != cols[0] {
          assert cols[1..][k] == cols[k + 1];
        }
      }
      forall i, j | 0 <= i < j < |all| ensures !SameKeyCells(all[i], all[j]) {
        if j < |head| {
          assert all[i] == head[i] && all[j] == head[j];
        } else if i < |head| {
          assert all[i] == head[i] && all[j] == tail[j - |head|];
        } else {
          assert all[i] == tail[i - |head|] && all[j] == tail[j - |head|];
        }
      }
    }
  }

  /** Every (date, city) of the table is a cell of the melted table. */
  lemma MeltComplete<V>(t: Daily<V>, c: City, j: nat)
    requires t.WellFormed() && c in t.columns && j < |t.keys|
    ensures Cell(t.keys[j], c, t.data[c][j]) in Melt(t)
  {
    MeltColumnsComplete(t, t.columns, c, j);
  }

  /**
   * The melted table has unique (date, City) keys and holds exactly the
   * table's cells, each read at its own key.
   */
  lemma MeltSound<V>(t: Daily<V>)
    requires IsDaily(t)
    ensures UniqueCells(Melt(t))
    ensures forall i :: 0 <= i < |Melt(t)| ==>
      Melt(t)[i].city in t.columns && Melt(t)[i].date in t.keys &&
      Melt(t)[i].value == At(t, Melt(t)[i].city, Melt(t)[i].date)
  {
    MeltColumnsUnique(t, t.columns);
    MeltColumnsSound(t, t.columns);
  }
}
