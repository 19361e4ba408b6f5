/** read_treekey.py: the row loops that turn calibration tables into the tree key (one
    edge string per distinct row, in first-occurrence order) and the predictions
    dictionary (one U, L, R triple per approach, the first row for it winning). The rows
    come in as the positional cells of each table row; how a cell prints or converts is a
    parameter. */
module Treekey {
  import opened Results
  import opened PyDicts

  /** How the loops see a cell: `int(v)` and `float(v)` as the text the f-string prints
      (or the error they raise), `str(v)`, and `bool(v)`. */
  datatype Conv<-V> = Conv(asInt: V -> Result<string>, asFloat: V -> Result<string>, asStr: V -> string, truthy: V -> bool)

  // ---------------------------------------------------------------------------
  // Repeat removal in first-occurrence order

  /** The list `if x not in out: out.append(x)` builds from `s`. */
  function Dedup<T(==)>(s: seq<T>): seq<T>
  {
    if |s| == 0 then []
    else
      var p := Dedup(s[..|s| - 1]);
      if s[|s| - 1] in p then p else p + [s[|s| - 1]]
  }

  /** `s.index(x)`, or `|s|` when `x` is absent. */
  function FirstIndex<T(==)>(s: seq<T>, x: T): (r: nat)
    ensures r <= |s| && (r < |s| <==> x in s)
    ensures r < |s| ==> s[r] == x
    ensures forall t :: 0 <= t < r ==> s[t] != x
  {
    if |s| == 0 then 0 else if s[0] == x then 0 else 1 + FirstIndex(s[1..], x)
  }

  /** Appending an entry leaves the first index of anything already present alone. */
  lemma {:induction false} FirstIndexSnoc<T>(p: seq<T>, y: T, x: T)
    requires x in p
    ensures FirstIndex(p + [y], x) == FirstIndex(p, x)
  {
    if p[0] != x {
      assert (p + [y])[1..] == p[1..] + [y];
      assert x in p[1..] by {
        var t :| 0 <= t < |p| && p[t] == x;
        assert p[1..][t - 1] == x;
      }
      FirstIndexSnoc(p[1..], y, x);
    }
  }

  /** The result holds every entry of `s` and nothing else, each once. */
  lemma {:induction false} DedupMembers<T>(s: seq<T>)
    ensures forall x :: x in Dedup(s) <==> x in s
    ensures forall i :: 0 <= i < |Dedup(s)| ==> Dedup(s)[i] in s
    ensures Distinct(Dedup(s))
  {
    if |s| > 0 {
      var n := |s| - 1;
      DedupMembers(s[..n]);
      assert s == s[..n] + [s[n]];
      var p := Dedup(s[..n]);
      if s[n] !in p {
        forall i, j | 0 <= i < j < |p| + 1 ensures (p + [s[n]])[i] != (p + [s[n]])[j] {
          if j == |p| {
            assert (p + [s[n]])[i] == p[i];
          } else {
            assert (p + [s[n]])[i] == p[i] && (p + [s[n]])[j] == p[j];
          }
        }
      }
    }
  }

  /** The result keeps first-occurrence order: an earlier entry of the result first
      appears in `s` before a later one does. */
  lemma {:induction false} DedupOrder<T>(s: seq<T>)
    ensures forall i, j :: 0 <= i < j < |Dedup(s)| ==> FirstIndex(s, Dedup(s)[i]) < FirstIndex(s, Dedup(s)[j])
  {
    if |s| > 0 {
      var n := |s| - 1;
      var p := s[..n];
      var dp := Dedup(p);
      var d := Dedup(s);
      DedupOrder(p);
      DedupMembers(p);
      assert s == p + [s[n]];
      assert d == if s[n] in dp then dp else dp + [s[n]];
      forall i, j | 0 <= i < j < |d| ensures FirstIndex(s, d[i]) < FirstIndex(s, d[j]) {
        assert d[i] == dp[i] && dp[i] in p;
        FirstIndexSnoc(p, s[n], d[i]);
        if j < |dp| {
          assert d[j] == dp[j] && dp[j] in p;
          FirstIndexSnoc(p, s[n], d[j]);
        } else {
          assert d[j] == s[n] && s[n] !in p;
          assert FirstIndex(s, d[j]) == n;
        }
      }
    }
  }

  // ---------------------------------------------------------------------------
  // read_treekey

  /** `f"{int(row[0])} {int(row[2])} {float(row[1])}"`, evaluated left to right. */
  function EdgeText<V>(row: seq<V>, c: Conv<V>): Result<string>
  {
    if |row| == 0 then Err(IndexError)
    else match c.asInt(row[0])
      case Err(e) => Err(e)
      case Ok(a) =>
        if |row| < 3 then Err(IndexError)
        else match c.asInt(row[2])
          case Err(e) => Err(e)
          case Ok(b) =>
            match c.asFloat(row[1])
              case Err(e) => Err(e)
              case Ok(w) => Ok(a + " " + b + " " + w)
  }

  /** The edge string of every row, or the error of the first row that raises. */
  function Edges<V>(rows: seq<seq<V>>, c: Conv<V>): Result<seq<string>>
  {
    if |rows| == 0 then Ok([])
    else match Edges(rows[..|rows| - 1], c)
      case Err(e) => Err(e)
      case Ok(es) => match EdgeText(rows[|rows| - 1], c)
        case Err(e) => Err(e)
        case Ok(t) => Ok(es + [t])
  }

  /** What `read_treekey` returns for the rows. */
  function Treekey<V>(rows: seq<seq<V>>, c: Conv<V>): Result<seq<string>>
  {
    match Edges(rows, c)
      case Err(e) => Err(e)
      case Ok(es) => Ok(Dedup(es))
  }

  /** Edges succeeds exactly when every row formats, entry `i` being row `i`'s string;
      otherwise its error is that of the first row that raises. */
  lemma {:induction false} EdgesRows<V>(rows: seq<seq<V>>, c: Conv<V>)
    ensures Edges(rows, c).Ok? <==> forall i :: 0 <= i < |rows| ==> EdgeText(rows[i], c).Ok?
    ensures Edges(rows, c).Ok? ==> |Edges(rows, c).value| == |rows| &&
                                   (forall i :: 0 <= i < |rows| ==> EdgeText(rows[i], c) == Ok(Edges(rows, c).value[i]))
    ensures Edges(rows, c).Err? ==> exists i :: 0 <= i < |rows| && EdgeText(rows[i], c) == Err(Edges(rows, c).error) &&
                                       (forall j :: 0 <= j < i ==> EdgeText(rows[j], c).Ok?)
  {
    if |rows| > 0 {
      var n := |rows| - 1;
      var p := rows[..n];
      EdgesRows(p, c);
      assert forall i :: 0 <= i < n ==> p[i] == rows[i];
      if Edges(p, c).Err? {
        var i :| 0 <= i < n && EdgeText(p[i], c) == Err(Edges(p, c).error) &&
          forall j :: 0 <= j < i ==> EdgeText(p[j], c).Ok?;
        assert EdgeText(rows[i], c) == Err(Edges(rows, c).error);
      }
    }
  }

  /** Once a prefix of the rows raises, so do the rows, with the same error. */
  lemma {:induction false} EdgesErr<V>(rows: seq<seq<V>>, c: Conv<V>, k: nat)
    requires k <= |rows| && Edges(rows[..k], c).Err?
    ensures Edges(rows, c) == Edges(rows[..k], c)
  {
    if k < |rows| {
      var n := |rows| - 1;
      assert rows[..n][..k] == rows[..k];
      EdgesErr(rows[..n], c, k);
    } else {
      assert rows[..k] == rows;
    }
  }

  /** `read_treekey` over rows given in table order. */
  method ReadTreekey<V>(rows: seq<seq<V>>, c: Conv<V>) returns (r: Result<seq<string>>)
    ensures r == Treekey(rows, c)
  {
    var treekey: seq<string> := [];
    ghost var es: seq<string> := [];
    for i := 0 to |rows|
      invariant Edges(rows[..i], c) == Ok(es) && treekey == Dedup(es)
    {
      assert rows[..i + 1][..i] == rows[..i];
      var edge := EdgeText(rows[i], c);
      if edge.Err? {
        EdgesErr(rows, c, i + 1);
        return Err(edge.error);
      }
      if edge.value !in treekey {
        treekey := treekey + [edge.value];
      }
      assert (es + [edge.value])[..|es|] == es;
      es := es + [edge.value];
    }
    assert rows[..|rows|] == rows;
    r := Ok(treekey);
  }

  /** The tree key fails exactly when some row does, with the first such row's error;
      otherwise it holds each row's edge string, no string twice, nothing that is not
      some row's string, and in first-occurrence order: every row whose string is a
      later entry comes after some row giving an earlier entry. */
  lemma TreekeyRows<V>(rows: seq<seq<V>>, c: Conv<V>)
    ensures Treekey(rows, c).Ok? <==> forall i :: 0 <= i < |rows| ==> EdgeText(rows[i], c).Ok?
    ensures Treekey(rows, c).Err? ==> exists i :: 0 <= i < |rows| && EdgeText(rows[i], c) == Err(Treekey(rows, c).error) &&
                                         (forall j :: 0 <= j < i ==> EdgeText(rows[j], c).Ok?)
    ensures Treekey(rows, c).Ok? ==> var ks := Treekey(rows, c).value;
      && Distinct(ks)
      && (forall i :: 0 <= i < |rows| ==> EdgeText(rows[i], c).value in ks)
      && (forall x :: x in ks ==> exists i :: 0 <= i < |rows| && EdgeText(rows[i], c) == Ok(x))
  {
    EdgesRows(rows, c);
    if Edges(rows, c).Ok? {
      var es := Edges(rows, c).value;
      DedupMembers(es);
      forall x | x in Dedup(es) ensures exists i :: 0 <= i < |rows| && EdgeText(rows[i], c) == Ok(x) {
        var i := FirstIndex(es, x);
        assert EdgeText(rows[i], c) == Ok(x);
      }
    }
  }

  lemma TreekeyOrder<V>(rows: seq<seq<V>>, c: Conv<V>)
    requires Treekey(rows, c).Ok?
    ensures var ks := Treekey(rows, c).value;
      forall i, j, b :: 0 <= i < j < |ks| && 0 <= b < |rows| && EdgeText(rows[b], c) == Ok(ks[j]) ==>
        exists a :: 0 <= a < b && EdgeText(rows[a], c) == Ok(ks[i])
  {
    EdgesRows(rows, c);
    var es := Edges(rows, c).value;
    var ks := Dedup(es);
    DedupMembers(es);
    DedupOrder(es);
    forall i, j, b | 0 <= i < j < |ks| && 0 <= b < |rows| && EdgeText(rows[b], c) == Ok(ks[j])
      ensures exists a :: 0 <= a < b && EdgeText(rows[a], c) == Ok(ks[i])
    {
      assert es[b] == ks[j];
      assert FirstIndex(es, ks[j]) <= b;
      assert ks[i] in es;
      var a := FirstIndex(es, ks[i]);
      assert EdgeText(rows[a], c) == Ok(ks[i]);
    }
  }

  // ---------------------------------------------------------------------------
  // read_predictions

  /** `(str(row[1]), str(row[0]))`: the node the ant comes from, and the junction. */
  function Approach<V>(row: seq<V>, c: Conv<V>): (string, string)
    requires |row| >= 2
  {
    (c.asStr(row[1]), c.asStr(row[0]))
  }

  /** The (U, L, R) triple of a row: U is cell 4, and cell 3 (the sharp turn) sits on
      the side `row[2]` says is sharp, cell 5 on the other. */
  function Ulr<V>(row: seq<V>, c: Conv<V>): (t: (V, V, V))
    requires |row| >= 6
    ensures t.0 == row[4]
    ensures (if c.truthy(row[2]) then (t.1, t.2) else (t.2, t.1)) == (row[3], row[5])
  {
    if c.truthy(row[2]) then (row[4], row[3], row[5]) else (row[4], row[5], row[3])
  }

  /** One pass of the loop: a row with a new approach adds its triple last; a row whose
      approach is already in stays out. */
  function Insert<V>(d: PyDict<(string, string), (V, V, V)>, row: seq<V>, c: Conv<V>): Result<PyDict<(string, string), (V, V, V)>>
  {
    if |row| < 2 then Err(IndexError)
    else if Approach(row, c) in d.vals then Ok(d)
    else if |row| < 6 then Err(IndexError)
    else Ok(d.Put(Approach(row, c), Ulr(row, c)))
  }

  /** What `read_predictions` returns for the rows. */
  function Predictions<V>(rows: seq<seq<V>>, c: Conv<V>): Result<PyDict<(string, string), (V, V, V)>>
  {
    if |rows| == 0 then Ok(Empty())
    else match Predictions(rows[..|rows| - 1], c)
      case Err(e) => Err(e)
      case Ok(d) => Insert(d, rows[|rows| - 1], c)
  }

  /** Once a prefix of the rows raises, so do the rows, with the same error. */
  lemma {:induction false} PredictionsErr<V>(rows: seq<seq<V>>, c: Conv<V>, k: nat)
    requires k <= |rows| && Predictions(rows[..k], c).Err?
    ensures Predictions(rows, c) == Predictions(rows[..k], c)
  {
    if k < |rows| {
      var n := |rows| - 1;
      assert rows[..n][..k] == rows[..k];
      PredictionsErr(rows[..n], c, k);
    } else {
      assert rows[..k] == rows;
    }
  }

  /** `read_predictions` over rows given in table order. */
  method ReadPredictions<V>(rows: seq<seq<V>>, c: Conv<V>) returns (r: Result<PyDict<(string, string), (V, V, V)>>)
    ensures r == Predictions(rows, c)
  {
    var predictions: PyDict<(string, string), (V, V, V)> := Empty();
    for i := 0 to |rows|
      invariant Predictions(rows[..i], c) == Ok(predictions)
    {
      assert rows[..i + 1][..i] == rows[..i];
      var row := rows[i];
      if |row| < 2 {
        PredictionsErr(rows, c, i + 1);
        return Err(IndexError);
      }
      var approach := (c.asStr(row[1]), c.asStr(row[0]));
      if approach !in predictions.vals {
        if |row| < 6 {
          PredictionsErr(rows, c, i + 1);
          return Err(IndexError);
        }
        if c.truthy(row[2]) {
          predictions := predictions.Put(approach, (row[4], row[3], row[5]));
        } else {
          predictions := predictions.Put(approach, (row[4], row[5], row[3]));
        }
      }
    }
    assert rows[..|rows|] == rows;
    r := Ok(predictions);
  }

  /** The approaches of the rows, in table order. */
  function Approaches<V>(rows: seq<seq<V>>, c: Conv<V>): (r: seq<(string, string)>)
    requires forall i :: 0 <= i < |rows| ==> |rows[i]| >= 2
    ensures |r| == |rows| && forall i :: 0 <= i < |rows| ==> r[i] == Approach(rows[i], c)
  {
    seq(|rows|, i requires 0 <= i < |rows| => Approach(rows[i], c))
  }

  /** The approaches of the rows are those of all but the last, then the last one's. */
  lemma ApproachesSnoc<V>(rows: seq<seq<V>>, c: Conv<V>)
    requires |rows| > 0 && forall i :: 0 <= i < |rows| ==> |rows[i]| >= 2
    ensures Approaches(rows, c) == Approaches(rows[..|rows| - 1], c) + [Approach(rows[|rows| - 1], c)]
  {
    var n := |rows| - 1;
    var a, ap := Approaches(rows, c), Approaches(rows[..n], c);
    assert |a| == |ap + [Approach(rows[n], c)]|;
    forall i | 0 <= i < |a| ensures a[i] == (ap + [Approach(rows[n], c)])[i] {
      if i < n {
        assert rows[..n][i] == rows[i];
      }
    }
  }

  /** A successful row: it has the cells of its approach; the dictionary stays well formed,
      gains its approach last if it is new, with the row's triple, and keeps everything
      else. */
  lemma InsertFacts<V>(d: PyDict<(string, string), (V, V, V)>, row: seq<V>, c: Conv<V>)
    requires d.Valid() && Insert(d, row, c).Ok?
    ensures var d1 := Insert(d, row, c).value;
      && |row| >= 2 && d1.Valid()
      && d1.keys == (if Approach(row, c) in d.keys then d.keys else d.keys + [Approach(row, c)])
      && d1.vals.Keys == d.vals.Keys + {Approach(row, c)}
      && (forall k :: k in d.vals ==> d1.vals[k] == d.vals[k])
      && (Approach(row, c) in d1.vals)
      && (Approach(row, c) !in d.vals ==> |row| >= 6 && d1.vals[Approach(row, c)] == Ulr(row, c))
  {
    if Approach(row, c) !in d.vals {
      PutValid(d, Approach(row, c), Ulr(row, c));
    }
  }

  /** The last row of a successful run succeeds on what the earlier rows made. */
  lemma PredictionsLast<V>(rows: seq<seq<V>>, c: Conv<V>)
    requires |rows| > 0 && Predictions(rows, c).Ok?
    ensures Predictions(rows[..|rows| - 1], c).Ok?
    ensures Predictions(rows, c) == Insert(Predictions(rows[..|rows| - 1], c).value, rows[|rows| - 1], c)
  {
  }

  /** A successful dictionary is well formed, every row has the cells of its approach,
      and the dictionary iterates exactly the approaches of the rows, each once, in the
      order they first appear. */
  lemma {:induction false} PredictionsKeys<V>(rows: seq<seq<V>>, c: Conv<V>)
    requires Predictions(rows, c).Ok?
    ensures forall i :: 0 <= i < |rows| ==> |rows[i]| >= 2
    ensures Predictions(rows, c).value.Valid()
    ensures Predictions(rows, c).value.keys == Dedup(Approaches(rows, c))
  {
    if |rows| > 0 {
      var n := |rows| - 1;
      var p := rows[..n];
      PredictionsLast(rows, c);
      PredictionsKeys(p, c);
      var dp := Predictions(p, c).value;
      InsertFacts(dp, rows[n], c);
      assert forall i :: 0 <= i < n ==> rows[i] == p[i];
      ApproachesSnoc(rows, c);
    }
  }

  /** Appending an entry not yet present puts its first index at the end. */
  lemma FirstIndexNew<T>(p: seq<T>, y: T)
    requires y !in p
    ensures FirstIndex(p + [y], y) == |p|
  {
  }

  /** Every approach in `d` carries the triple of the first row with that approach, and
      that row has all six cells. */
  ghost predicate FirstRowsWin<V>(rows: seq<seq<V>>, c: Conv<V>, d: PyDict<(string, string), (V, V, V)>)
    requires forall i :: 0 <= i < |rows| ==> |rows[i]| >= 2
  {
    var a := Approaches(rows, c);
    forall k :: k in d.vals ==>
      FirstIndex(a, k) < |rows| && |rows[FirstIndex(a, k)]| >= 6 && d.vals[k] == Ulr(rows[FirstIndex(a, k)], c)
  }

  /** One more row keeps `FirstRowsWin`. */
  lemma FirstRowsStep<V>(rows: seq<seq<V>>, c: Conv<V>, dp: PyDict<(string, string), (V, V, V)>, d: PyDict<(string, string), (V, V, V)>)
    requires |rows| > 0 && forall i :: 0 <= i < |rows| ==> |rows[i]| >= 2
    requires dp.Valid() && Insert(dp, rows[|rows| - 1], c) == Ok(d)
    requires dp.keys == Dedup(Approaches(rows[..|rows| - 1], c))
    requires FirstRowsWin(rows[..|rows| - 1], c, dp)
    ensures FirstRowsWin(rows, c, d)
  {
    var n := |rows| - 1;
    var p := rows[..n];
    InsertFacts(dp, rows[n], c);
    var a := Approaches(rows, c);
    var ap := Approaches(p, c);
    ApproachesSnoc(rows, c);
    DedupMembers(ap);
    forall k | k in d.vals
      ensures FirstIndex(a, k) < |rows| && |rows[FirstIndex(a, k)]| >= 6 && d.vals[k] == Ulr(rows[FirstIndex(a, k)], c)
    {
      if k in dp.vals {
        assert k in dp.keys;
        FirstIndexSnoc(ap, a[n], k);
        assert p[FirstIndex(ap, k)] == rows[FirstIndex(ap, k)];
      } else {
        assert k == a[n];
        FirstIndexNew(ap, k);
      }
    }
  }

  /** The triple of every approach in the dictionary is that of the first row with that
      approach, and that row has all six cells. */
  lemma {:induction false} PredictionsFirst<V>(rows: seq<seq<V>>, c: Conv<V>)
    requires Predictions(rows, c).Ok?
    ensures forall i :: 0 <= i < |rows| ==> |rows[i]| >= 2
    ensures FirstRowsWin(rows, c, Predictions(rows, c).value)
  {
    PredictionsKeys(rows, c);
    if |rows| > 0 {
      var p := rows[..|rows| - 1];
      PredictionsLast(rows, c);
      PredictionsFirst(p, c);
      PredictionsKeys(p, c);
      FirstRowsStep(rows, c, Predictions(p, c).value, Predictions(rows, c).value);
    }
  }

  /** No row is too short for the cells it is read at: the two of its approach, or all
      six for the first row of an approach. */
  ghost predicate Readable<V>(rows: seq<seq<V>>, c: Conv<V>)
  {
    Wide(rows) && SixAtFirsts(rows, c)
  }

  /** Every row has the two cells of its approach. */
  ghost predicate Wide<V>(rows: seq<seq<V>>)
  {
    forall i :: 0 <= i < |rows| ==> |rows[i]| >= 2
  }

  /** The first row of each approach has all six cells. */
  ghost predicate SixAtFirsts<V>(rows: seq<seq<V>>, c: Conv<V>)
    requires Wide(rows)
  {
    forall i :: 0 <= i < |rows| && FirstIndex(Approaches(rows, c), Approach(rows[i], c)) == i ==> |rows[i]| >= 6
  }

  lemma WideSnoc<V>(rows: seq<seq<V>>)
    requires |rows| > 0
    ensures Wide(rows) <==> Wide(rows[..|rows| - 1]) && |rows[|rows| - 1]| >= 2
  {
    assert forall i :: 0 <= i < |rows| - 1 ==> rows[i] == rows[..|rows| - 1][i];
  }

  /** The first rows of the approaches are those of all but the last row, and the last row
      too when its approach is new. */
  lemma SixSnoc<V>(rows: seq<seq<V>>, c: Conv<V>)
    requires |rows| > 0 && Wide(rows)
    ensures Wide(rows[..|rows| - 1])
    ensures SixAtFirsts(rows, c) <==>
      && SixAtFirsts(rows[..|rows| - 1], c)
      && (Approach(rows[|rows| - 1], c) !in Approaches(rows[..|rows| - 1], c) ==> |rows[|rows| - 1]| >= 6)
  {
    var n := |rows| - 1;
    var p := rows[..n];
    assert forall i :: 0 <= i < n ==> rows[i] == p[i];
    var a := Approaches(rows, c);
    var ap := Approaches(p, c);
    ApproachesSnoc(rows, c);
    forall i | 0 <= i < n ensures FirstIndex(a, a[i]) == FirstIndex(ap, ap[i]) {
      assert ap[i] == a[i];
      FirstIndexSnoc(ap, a[n], a[i]);
    }
    if a[n] !in ap {
      FirstIndexNew(ap, a[n]);
    } else {
      FirstIndexSnoc(ap, a[n], a[n]);
    }
  }

  /** The dictionary fails exactly when some row is too short for the cells it is read at. */
  lemma {:induction false} PredictionsOk<V>(rows: seq<seq<V>>, c: Conv<V>)
    ensures Predictions(rows, c).Ok? <==> Readable(rows, c)
  {
    if |rows| > 0 {
      var n := |rows| - 1;
      var p := rows[..n];
      PredictionsOk(p, c);
      WideSnoc(rows);
      if Wide(rows) {
        SixSnoc(rows, c);
      }
      if Predictions(p, c).Ok? {
        PredictionsKeys(p, c);
        DedupMembers(Approaches(p, c));
        var dp := Predictions(p, c).value;
        assert Predictions(rows, c) == Insert(dp, rows[n], c);
        if |rows[n]| >= 2 {
          assert Approach(rows[n], c) in dp.vals <==> Approach(rows[n], c) in dp.keys;
        }
      }
    }
  }
}
