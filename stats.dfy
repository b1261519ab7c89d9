/**
 * The aggregates the reporters use: `value_counts()`, `value_counts().idxmax()`,
 * `mode()[0]`, `min()`, `max()` and `sum()` on one column, with missing cells
 * dropped first where pandas drops them.
 */
module Stats {
  import opened Wrappers

  /** The number of times `v` occurs in `s`. */
  function Count<T(==)>(s: seq<T>, v: T): nat
  {
    if s == [] then 0 else (if s[0] == v then 1 else 0) + Count(s[1..], v)
  }

  /** A count is the multiplicity of the value in the column's multiset. */
  lemma {:induction false} CountIsMultiplicity<T>(s: seq<T>, v: T)
    ensures Count(s, v) == multiset(s)[v]
  {
    if s != [] {
      CountIsMultiplicity(s[1..], v);
      assert s == [s[0]] + s[1..];
    }
  }

  /** A value is counted at least once exactly when it occurs. */
  lemma {:induction false} CountPositive<T>(s: seq<T>, v: T)
    ensures Count(s, v) > 0 <==> v in s
  {
    if s != [] {
      CountPositive(s[1..], v);
      assert s == [s[0]] + s[1..];
    }
  }

  /** `v` occurs in `col` and no value occurs more often. */
  ghost predicate IsMode<T(!new)>(col: seq<T>, v: T)
  {
    v in col && forall w :: Count(col, w) <= Count(col, v)
  }

  /**
   * The position in `from` of the value that occurs most often in `col`; every
   * value before that position occurs strictly less often.
   */
  function Leader<T(==)>(col: seq<T>, from: seq<T>): (k: nat)
    requires from != []
    ensures k < |from|
    ensures forall i :: 0 <= i < |from| ==> Count(col, from[i]) <= Count(col, from[k])
    ensures forall i :: 0 <= i < k ==> Count(col, from[i]) < Count(col, from[k])
  {
    if |from| == 1 then 0
    else
      var j := Leader(col, from[1..]);
      if Count(col, from[0]) >= Count(col, from[1..][j]) then 0 else j + 1
  }

  /**
   * `col.value_counts().idxmax()`: a most frequent value, none for an empty
   * column (where pandas raises). Among equally frequent values this model
   * takes the one that occurs first in the column.
   */
  function MostCommon<T(==,!new)>(col: seq<T>): (r: Option<T>)
    ensures r.None? <==> col == []
    ensures r.Some? ==> IsMode(col, r.value)
    ensures r.Some? ==> forall i :: 0 <= i < |col| && Count(col, col[i]) == Count(col, r.value) ==> r.value in col[..i + 1]
  {
    if col == [] then None
    else
      var k := Leader(col, col);
      var v := col[k];
      forall w ensures Count(col, w) <= Count(col, v) {
        if w in col {
          var i :| 0 <= i < |col| && col[i] == w;
        } else {
          CountPositive(col, w);
        }
      }
      forall i | 0 <= i < |col| && Count(col, col[i]) == Count(col, v) ensures v in col[..i + 1] {
        assert col[..i + 1][k] == v;
      }
      Some(v)
  }

  /** The smallest value of `from` among those that occur most often in `col`. */
  function LowLeader(col: seq<int>, from: seq<int>): (r: int)
    requires from != []
    ensures r in from
    ensures forall i :: 0 <= i < |from| ==> Count(col, from[i]) <= Count(col, r)
    ensures forall i :: 0 <= i < |from| && Count(col, from[i]) == Count(col, r) ==> r <= from[i]
  {
    if |from| == 1 then from[0]
    else
      var rest := LowLeader(col, from[1..]);
      var c0, cr := Count(col, from[0]), Count(col, rest);
      if c0 > cr || (c0 == cr && from[0] <= rest) then from[0] else rest
  }

  /**
   * `col.mode()[0]`: pandas lists the most frequent values in ascending order, so
   * this is the smallest of them; none for an empty column (where `[0]` raises).
   */
  function LowestMode(col: seq<int>): (r: Option<int>)
    ensures r.None? <==> col == []
    ensures r.Some? ==> IsMode(col, r.value)
    ensures r.Some? ==> forall w :: IsMode(col, w) ==> r.value <= w
  {
    if col == [] then None
    else
      var v := LowLeader(col, col);
      forall w ensures Count(col, w) <= Count(col, v) && (w in col && Count(col, w) == Count(col, v) ==> v <= w) {
        if w in col {
          var i :| 0 <= i < |col| && col[i] == w;
        } else {
          CountPositive(col, w);
        }
      }
      Some(v)
  }

  /** `min()` of a non-empty column. */
  function Min(xs: seq<int>): (r: int)
    requires xs != []
    ensures r in xs
    ensures forall i :: 0 <= i < |xs| ==> r <= xs[i]
  {
    if |xs| == 1 then xs[0]
    else
      var m := Min(xs[1..]);
      if xs[0] <= m then xs[0] else m
  }

  /** `max()` of a non-empty column. */
  function Max(xs: seq<int>): (r: int)
    requires xs != []
    ensures r in xs
    ensures forall i :: 0 <= i < |xs| ==> xs[i] <= r
  {
    if |xs| == 1 then xs[0]
    else
      var m := Max(xs[1..]);
      if xs[0] >= m then xs[0] else m
  }

  /** `value_counts()`: every value of the column with the number of times it occurs. */
  function ValueCounts<T(==,!new)>(col: seq<T>): (m: map<T, nat>)
    ensures forall v :: v in m <==> v in col
    ensures forall v :: v in m ==> m[v] == Count(col, v)
  {
    if col == [] then map[]
    else
      var m := ValueCounts(col[1..]);
      assert col == [col[0]] + col[1..];
      CountPositive(col[1..], col[0]);
      m[col[0] := (if col[0] in m then m[col[0]] else 0) + 1]
  }

  /** The column with its missing (NaN) cells dropped, as pandas does before counting or taking extremes. */
  function Present<U(!new)>(col: seq<Option<U>>): (r: seq<U>)
    ensures |r| <= |col|
    ensures forall v :: v in r <==> Some(v) in col
    ensures forall v :: Count(r, v) == Count(col, Some(v))
  {
    if col == [] then []
    else
      var rest := Present(col[1..]);
      assert col == [col[0]] + col[1..];
      if col[0].Some? then
        assert ([col[0].value] + rest)[1..] == rest;
        [col[0].value] + rest
      else rest
  }

  /** `sum()`. */
  function Sum(xs: seq<int>): int
  {
    if xs == [] then 0 else xs[0] + Sum(xs[1..])
  }

  /** Summing is additive over concatenation, so the total of a selection splits over any split of its rows. */
  lemma {:induction false} SumAppend(a: seq<int>, b: seq<int>)
    ensures Sum(a + b) == Sum(a) + Sum(b)
  {
    if a != [] {
      SumAppend(a[1..], b);
      assert (a + b)[1..] == a[1..] + b;
    } else {
      assert a + b == b;
    }
  }

  /** Earliest, most recent and most common value of a non-empty column, in that order. */
  lemma ExtremesAroundMode(col: seq<int>)
    requires col != []
    ensures Min(col) <= MostCommon(col).value <= Max(col)
  {
    var v := MostCommon(col).value;
    var i :| 0 <= i < |col| && col[i] == v;
  }
}
