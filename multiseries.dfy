/** The series aligner of cmd/metric/metric.go: MultiSeries.Rows merges
    several (timestep, value) series into one table with a row per distinct
    timestep, in ascending order, and one value slot per input series. */
module MultiSeries {
  import opened Sorting
  import opened SeqFacts

  /** One point of a time series (query.XY): a timestep and a value. The
      value is only copied, so float64 is modelled as real. */
  datatype XY = XY(x: int, y: real)

  /** One output row: a timestep and one value per input series. */
  datatype Row = Row(x: int, ys: seq<real>)

  /** The timesteps one series has a point at. */
  function Xs(s: seq<XY>): set<int>
  {
    if s == [] then {} else Xs(s[..|s| - 1]) + {s[|s| - 1].x}
  }

  /** The union of the timesteps of all series. */
  function Domain(ms: seq<seq<XY>>): set<int>
  {
    if ms == [] then {} else Domain(ms[..|ms| - 1]) + Xs(ms[|ms| - 1])
  }

  /** Xs holds exactly the timesteps of the series' points. */
  lemma {:induction false} XsMembers(s: seq<XY>, x: int)
    ensures x in Xs(s) <==> exists k :: 0 <= k < |s| && s[k].x == x
  {
    if s != [] {
      var init := s[..|s| - 1];
      XsMembers(init, x);
      if x in Xs(init) {
        var k :| 0 <= k < |init| && init[k].x == x;
        assert s[k].x == x;
      }
      if k :| 0 <= k < |s| && s[k].x == x {
        if k < |init| {
          assert init[k].x == x;
        }
      }
    }
  }

  /** Domain holds exactly the timesteps at which some series has a point. */
  lemma {:induction false} DomainMembers(ms: seq<seq<XY>>, x: int)
    ensures x in Domain(ms) <==> exists i :: 0 <= i < |ms| && x in Xs(ms[i])
  {
    if ms != [] {
      var init := ms[..|ms| - 1];
      DomainMembers(init, x);
      if x in Domain(init) {
        var i :| 0 <= i < |init| && x in Xs(init[i]);
        assert ms[i] == init[i];
      }
      if i :| 0 <= i < |ms| && x in Xs(ms[i]) {
        if i < |init| {
          assert init[i] == ms[i];
        }
      }
    }
  }

  /** The value series s contributes at timestep x: the value of its last
      point at x, or the zero value when it has no point there. */
  function Slot(s: seq<XY>, x: int): real
  {
    if s == [] then 0.0
    else if s[|s| - 1].x == x then s[|s| - 1].y
    else Slot(s[..|s| - 1], x)
  }

  /** A series without a point at x leaves the slot at zero. */
  lemma {:induction false} SlotMissing(s: seq<XY>, x: int)
    requires x !in Xs(s)
    ensures Slot(s, x) == 0.0
  {
    if s != [] {
      SlotMissing(s[..|s| - 1], x);
    }
  }

  /** When a series has several points at x, the later one wins. */
  lemma {:induction false} SlotLastWins(s: seq<XY>, k: nat)
    requires k < |s|
    requires forall j :: k < j < |s| ==> s[j].x != s[k].x
    ensures Slot(s, s[k].x) == s[k].y
  {
    if k < |s| - 1 {
      SlotLastWins(s[..|s| - 1], k);
    }
  }

  /** What Rows promises: rows strictly increasing by timestep, one row for
      each timestep of some series and for no other, each row holding
      exactly one slot per series, filled from that series or zero. */
  ghost predicate Aligned(ms: seq<seq<XY>>, rows: seq<Row>)
  {
    && (forall a, b :: 0 <= a < b < |rows| ==> rows[a].x < rows[b].x)
    && (forall x :: x in Domain(ms) <==> exists a :: 0 <= a < |rows| && rows[a].x == x)
    && (forall a :: 0 <= a < |rows| ==>
          |rows[a].ys| == |ms| && forall i :: 0 <= i < |ms| ==> rows[a].ys[i] == Slot(ms[i], rows[a].x))
  }

  /** The state of the table after the points of `view` have been merged:
      one entry per timestep seen so far, keyed by its own timestep, with
      |ms| slots, slot i filled from view[i] (zero beyond the view). */
  ghost predicate Merged(rowmap: map<int, Row>, n: nat, view: seq<seq<XY>>)
  {
    && rowmap.Keys == Domain(view)
    && forall x :: x in rowmap ==>
         && rowmap[x].x == x
         && |rowmap[x].ys| == n
         && forall i :: 0 <= i < n ==> rowmap[x].ys[i] == if i < |view| then Slot(view[i], x) else 0.0
  }

  /** The slots of a fresh row: one zero value per series. */
  function Zeros(n: nat): seq<real>
  {
    seq(n, _ => 0.0)
  }

  /** Starting on a new series changes nothing: it has no points yet. */
  lemma MergedStartSeries(rowmap: map<int, Row>, n: nat, done: seq<seq<XY>>)
    requires |done| < n
    requires Merged(rowmap, n, done)
    ensures Merged(rowmap, n, done + [[]])
  {
    assert (done + [[]])[..|done|] == done;
  }

  /** Merging one more point of the current series: the point's row (found,
      or fresh with zero slots) gets the point's value in the series' slot. */
  lemma MergedAddPoint(rowmap: map<int, Row>, n: nat, done: seq<seq<XY>>, cur: seq<XY>, xy: XY)
    requires |done| < n
    requires Merged(rowmap, n, done + [cur])
    ensures var row := if xy.x in rowmap then rowmap[xy.x] else Row(xy.x, Zeros(n));
            Merged(rowmap[xy.x := row.(ys := row.ys[|done| := xy.y])], n, done + [cur + [xy]])
  {
    var view, view' := done + [cur], done + [cur + [xy]];
    var row := if xy.x in rowmap then rowmap[xy.x] else Row(xy.x, Zeros(n));
    var rowmap' := rowmap[xy.x := row.(ys := row.ys[|done| := xy.y])];
    assert Domain(view') == Domain(view) + {xy.x} by {
      assert view[..|done|] == done && view'[..|done|] == done;
      assert (cur + [xy])[..|cur|] == cur;
    }
    forall x | x in rowmap'
      ensures rowmap'[x].x == x && |rowmap'[x].ys| == n
      ensures forall i :: 0 <= i < n ==> rowmap'[x].ys[i] == if i < |view'| then Slot(view'[i], x) else 0.0
    {
      forall i | 0 <= i < n
        ensures rowmap'[x].ys[i] == if i < |view'| then Slot(view'[i], x) else 0.0
      {
        if i == |done| {
          assert view'[i] == cur + [xy] && view[i] == cur;
          assert (cur + [xy])[..|cur|] == cur && (cur + [xy])[|cur|] == xy;
        } else if i < |done| {
          assert view'[i] == view[i];
          if x !in rowmap {
            DomainMembers(view, x);
            SlotMissing(view[i], x);
          }
        }
      }
    }
  }

  /** MultiSeries.Rows. */
  method Rows(ms: seq<seq<XY>>) returns (rows: seq<Row>)
    ensures Aligned(ms, rows)
  {
    var rowmap: map<int, Row> := map[];
    var xs: seq<int> := [];
    var i := 0;
    while i < |ms|
      invariant 0 <= i <= |ms|
      invariant Merged(rowmap, |ms|, ms[..i])
      invariant Distinct(xs)
      invariant forall x :: x in xs <==> x in rowmap
    {
      var j := 0;
      MergedStartSeries(rowmap, |ms|, ms[..i]);
      while j < |ms[i]|
        invariant 0 <= j <= |ms[i]|
        invariant Merged(rowmap, |ms|, ms[..i] + [ms[i][..j]])
        invariant Distinct(xs)
        invariant forall x :: x in xs <==> x in rowmap
      {
        var xy := ms[i][j];
        MergedAddPoint(rowmap, |ms|, ms[..i], ms[i][..j], xy);
        PrefixExtend(ms[i], j);
        var row: Row;
        if xy.x in rowmap {
          row := rowmap[xy.x];
        } else {
          xs := xs + [xy.x];
          row := Row(xy.x, Zeros(|ms|));
        }
        row := row.(ys := row.ys[i := xy.y]);
        rowmap := rowmap[xy.x := row];
        j := j + 1;
      }
      assert ms[i][..j] == ms[i];
      PrefixExtend(ms, i);
      i := i + 1;
    }
    assert ms[..i] == ms;

    var sorted := SortInts(xs);
    PermutationKeepsDistinct(xs, sorted);
    assert forall x :: x in sorted <==> x in rowmap by {
      assert forall x :: x in sorted <==> x in multiset(xs);
    }
    assert forall a :: 0 <= a < |sorted| ==> sorted[a] in rowmap;
    rows := Collect(rowmap, sorted);
    TableAligned(ms, rowmap, sorted, rows);
  }

  /** The final loop of Rows: the table's rows, in the order of the keys. */
  method Collect(rowmap: map<int, Row>, keys: seq<int>) returns (rows: seq<Row>)
    requires forall a :: 0 <= a < |keys| ==> keys[a] in rowmap
    ensures |rows| == |keys|
    ensures forall a :: 0 <= a < |keys| ==> rows[a] == rowmap[keys[a]]
  {
    rows := [];
    var k := 0;
    while k < |keys|
      invariant 0 <= k <= |keys|
      invariant |rows| == k
      invariant forall a :: 0 <= a < k ==> rows[a] == rowmap[keys[a]]
    {
      rows := rows + [rowmap[keys[k]]];
      k := k + 1;
    }
  }

  /** Reading the merged table in sorted key order gives the aligned rows. */
  lemma TableAligned(ms: seq<seq<XY>>, rowmap: map<int, Row>, keys: seq<int>, rows: seq<Row>)
    requires Merged(rowmap, |ms|, ms)
    requires Sorted(keys) && Distinct(keys)
    requires forall a :: 0 <= a < |keys| ==> keys[a] in rowmap
    requires forall x :: x in rowmap ==> x in keys
    requires |rows| == |keys|
    requires forall a :: 0 <= a < |keys| ==> rows[a] == rowmap[keys[a]]
    ensures Aligned(ms, rows)
  {
    assert forall a :: 0 <= a < |rows| ==> rows[a].x == keys[a];
    forall x | x in Domain(ms) ensures exists a :: 0 <= a < |rows| && rows[a].x == x {
      var a :| 0 <= a < |keys| && keys[a] == x;
      assert rows[a].x == x;
    }
  }

  /** The timesteps of a table, row by row. */
  function RowXs(rows: seq<Row>): (r: seq<int>)
    ensures |r| == |rows| && forall a :: 0 <= a < |rows| ==> r[a] == rows[a].x
  {
    seq(|rows|, a requires 0 <= a < |rows| => rows[a].x)
  }

  /** Aligned leaves no freedom: at most one table satisfies it. So the
      rows Rows returns are determined by its input alone. */
  lemma AlignedUnique(ms: seq<seq<XY>>, r1: seq<Row>, r2: seq<Row>)
    requires Aligned(ms, r1) && Aligned(ms, r2)
    ensures r1 == r2
  {
    var a, b := RowXs(r1), RowXs(r2);
    forall x ensures x in a <==> x in b {
      assert x in a <==> exists k :: 0 <= k < |r1| && r1[k].x == x;
      assert x in b <==> exists k :: 0 <= k < |r2| && r2[k].x == x;
      assert x in a <==> x in Domain(ms);
    }
    IncreasingUnique(a, b);
    forall k | 0 <= k < |r1| ensures r1[k] == r2[k] {
      assert r1[k].x == a[k] == b[k] == r2[k].x;
      assert r1[k].ys == r2[k].ys;
    }
  }

  /** There are exactly as many rows as distinct timesteps in the input. */
  lemma AlignedRowCount(ms: seq<seq<XY>>, rows: seq<Row>)
    requires Aligned(ms, rows)
    ensures |rows| == |Domain(ms)|
  {
    var a := RowXs(rows);
    DistinctCardinality(a);
    forall x ensures x in a <==> x in Domain(ms) {
      assert x in a <==> exists k :: 0 <= k < |rows| && rows[k].x == x;
    }
    assert (set x | x in a) == Domain(ms);
  }

  /** The two series of the worked example: [(0,1),(2,3)] and [(1,5)]. */
  function ExampleSeries(): seq<seq<XY>>
  {
    [[XY(0, 1.0), XY(2, 3.0)], [XY(1, 5.0)]]
  }

  /** The table the worked example aligns to. */
  function ExampleRows(): seq<Row>
  {
    [Row(0, [1.0, 0.0]), Row(1, [0.0, 5.0]), Row(2, [3.0, 0.0])]
  }

  lemma ExampleDomain()
    ensures Domain(ExampleSeries()) == {0, 1, 2}
  {
    var ms := ExampleSeries();
    assert ms[..1] == [ms[0]] && ms[..0] == [];
    assert ms[0][..1] == [ms[0][0]] && ms[1][..0] == [];
  }

  lemma ExampleSlots()
    ensures forall a, i :: 0 <= a < 3 && 0 <= i < 2 ==>
      ExampleRows()[a].ys[i] == Slot(ExampleSeries()[i], ExampleRows()[a].x)
  {
    var ms := ExampleSeries();
    assert ms[0][..1] == [ms[0][0]] && ms[1][..0] == [];
  }

  /** The worked example's table is aligned with its series. */
  lemma ExampleAligned()
    ensures Aligned(ExampleSeries(), ExampleRows())
  {
    var ms, expected := ExampleSeries(), ExampleRows();
    ExampleDomain();
    ExampleSlots();
    forall x | x in Domain(ms) ensures exists a :: 0 <= a < |expected| && expected[a].x == x {
      assert expected[x].x == x;
    }
  }

  /** The worked example: the two series align to the rows 0, 1 and 2,
      with zero where a series has no point, and to nothing else. */
  lemma RowsExample(rows: seq<Row>)
    requires Aligned(ExampleSeries(), rows)
    ensures rows == ExampleRows()
  {
    ExampleAligned();
    AlignedUnique(ExampleSeries(), rows, ExampleRows());
  }
}
