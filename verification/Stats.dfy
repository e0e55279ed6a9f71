/** Order statistics and sustained runs (internal/analyzer/stats/stats.go).  The spike detector's
    own quantile function (internal/spike/spike.go) is the same computation. */
module Stats {
  import opened Common

  // ---- sorting reals ----------------------------------------------------------------------

  ghost predicate Sorted(s: seq<real>) { forall i, j :: 0 <= i < j < |s| ==> s[i] <= s[j] }

  function Insert(s: seq<real>, x: real): seq<real> {
    if s == [] || s[|s| - 1] <= x then s + [x] else Insert(s[..|s| - 1], x) + [s[|s| - 1]]
  }

  /** sort.Float64s on a copy. */
  function Sort(s: seq<real>): seq<real> {
    if s == [] then [] else Insert(Sort(s[..|s| - 1]), s[|s| - 1])
  }

  lemma SortedSnoc(s: seq<real>, x: real)
    requires Sorted(s) && forall y :: y in s ==> y <= x
    ensures Sorted(s + [x])
  {
    forall i | 0 <= i < |s| ensures s[i] <= x {
      assert s[i] in s;
    }
  }

  lemma LastIsMax(s: seq<real>)
    requires Sorted(s) && s != []
    ensures Sorted(s[..|s| - 1]) && forall y :: y in s ==> y <= s[|s| - 1]
  {
    forall y | y in s ensures y <= s[|s| - 1] {
      var i :| 0 <= i < |s| && s[i] == y;
    }
  }

  lemma {:induction false} InsertSorts(s: seq<real>, x: real)
    requires Sorted(s)
    ensures Sorted(Insert(s, x)) && |Insert(s, x)| == |s| + 1
    ensures multiset(Insert(s, x)) == multiset(s) + multiset{x}
  {
    if s == [] {
    } else if s[|s| - 1] <= x {
      LastIsMax(s);
      SortedSnoc(s, x);
    } else {
      var init, last := s[..|s| - 1], s[|s| - 1];
      assert s == init + [last];
      LastIsMax(s);
      InsertSorts(init, x);
      var r := Insert(init, x);
      forall y | y in r ensures y <= last {
        assert y in multiset(r);
      }
      SortedSnoc(r, last);
    }
  }

  lemma {:induction false} SortSorts(s: seq<real>)
    ensures Sorted(Sort(s)) && |Sort(s)| == |s| && multiset(Sort(s)) == multiset(s)
  {
    if s != [] {
      assert s == s[..|s| - 1] + [s[|s| - 1]];
      SortSorts(s[..|s| - 1]);
      InsertSorts(Sort(s[..|s| - 1]), s[|s| - 1]);
    }
  }

  lemma SameElements(s: seq<real>, t: seq<real>)
    requires multiset(s) == multiset(t)
    ensures |s| == |t| && forall x :: x in s <==> x in t
  {
    assert |s| == |multiset(s)| && |t| == |multiset(t)|;
    forall x ensures x in s <==> x in t {
      assert x in s <==> x in multiset(s);
      assert x in t <==> x in multiset(t);
    }
  }

  lemma SameLast(s: seq<real>, t: seq<real>)
    requires Sorted(s) && Sorted(t) && multiset(s) == multiset(t) && s != []
    ensures t != [] && s[|s| - 1] == t[|t| - 1]
  {
    SameElements(s, t);
    LastIsMax(s);
    LastIsMax(t);
    var a, b := s[|s| - 1], t[|t| - 1];
    assert a in s && b in t;
    assert a in t && b in s;
  }

  lemma DropSame(s: seq<real>, t: seq<real>, x: real)
    requires multiset(s + [x]) == multiset(t + [x])
    ensures multiset(s) == multiset(t)
  {
    assert multiset(s) == multiset(s + [x]) - multiset{x};
    assert multiset(t) == multiset(t + [x]) - multiset{x};
  }

  lemma {:induction false} SortedUnique(s: seq<real>, t: seq<real>)
    requires Sorted(s) && Sorted(t) && multiset(s) == multiset(t)
    ensures s == t
  {
    SameElements(s, t);
    if s != [] {
      SameLast(s, t);
      LastIsMax(s);
      LastIsMax(t);
      var s0, t0, x := s[..|s| - 1], t[..|t| - 1], s[|s| - 1];
      assert s == s0 + [x] && t == t0 + [x];
      DropSame(s0, t0, x);
      SortedUnique(s0, t0);
    }
  }

  /** Sorting forgets the order of its input. */
  lemma SortPermuted(s: seq<real>, t: seq<real>)
    requires multiset(s) == multiset(t)
    ensures Sort(s) == Sort(t)
  {
    SortSorts(s);
    SortSorts(t);
    SortedUnique(Sort(s), Sort(t));
  }

  // ---- quantiles --------------------------------------------------------------------------

  function Position(n: nat, q: real): real
    requires n > 0
  {
    q * (n - 1) as real
  }

  /** Linear interpolation between the neighbours of position q*(n-1). */
  function Quantile(sorted: seq<real>, q: real): real
    requires 0.0 <= q <= 1.0
  {
    if |sorted| == 0 then 0.0
    else
      PositionInRange(|sorted|, q);
      At(sorted, Position(|sorted|, q))
  }

  /** The value at a fractional position. */
  function At(sorted: seq<real>, pos: real): real
    requires 0 <= Floor(pos) <= Ceil(pos) < |sorted|
  {
    var lo, hi := Floor(pos), Ceil(pos);
    if lo == hi then sorted[lo]
    else
      var frac := pos - lo as real;
      sorted[lo] * (1.0 - frac) + sorted[hi] * frac
  }

  lemma PositionInRange(n: nat, q: real)
    requires 0.0 <= q <= 1.0 && n > 0
    ensures 0 <= Floor(Position(n, q)) <= Ceil(Position(n, q)) < n
  {
    Scaled(0.0, q, (n - 1) as real);
    Scaled(q, 1.0, (n - 1) as real);
  }

  lemma Scaled(p: real, q: real, m: real)
    requires p <= q && 0.0 <= m
    ensures p * m <= q * m
  {
    assert (q - p) * m >= 0.0;
    assert (q - p) * m == q * m - p * m;
  }

  lemma PositionMonotone(n: nat, p: real, q: real)
    requires n > 0 && p <= q
    ensures Position(n, p) <= Position(n, q)
  {
    var m := (n - 1) as real;
    assert Position(n, p) == p * m && Position(n, q) == q * m;
    Scaled(p, q, m);
  }

  lemma Interpolated(x: real, y: real, f: real, g: real)
    requires x <= y && 0.0 <= f <= g <= 1.0
    ensures x <= x * (1.0 - f) + y * f <= x * (1.0 - g) + y * g <= y
  {
    assert x * (1.0 - f) + y * f == x + f * (y - x);
    assert x * (1.0 - g) + y * g == x + g * (y - x);
    Scaled(0.0, f, y - x);
    Scaled(f, g, y - x);
    Scaled(g, 1.0, y - x);
  }

  /** A value at a position lies between the two order statistics around it. */
  lemma AtBetween(s: seq<real>, pos: real)
    requires Sorted(s) && 0 <= Floor(pos) <= Ceil(pos) < |s|
    ensures s[Floor(pos)] <= At(s, pos) <= s[Ceil(pos)]
  {
    if Floor(pos) != Ceil(pos) {
      Interpolated(s[Floor(pos)], s[Ceil(pos)], pos - Floor(pos) as real, pos - Floor(pos) as real);
    }
  }

  lemma AtMonotone(s: seq<real>, x: real, y: real)
    requires Sorted(s) && 0 <= Floor(x) && x <= y && Ceil(y) < |s|
    ensures 0 <= Floor(x) <= Ceil(x) < |s| && 0 <= Floor(y) <= Ceil(y) < |s| && At(s, x) <= At(s, y)
  {
    AtBetween(s, x);
    AtBetween(s, y);
    if Floor(x) == Floor(y) && Ceil(x) != Floor(x) && Ceil(y) != Floor(y) {
      assert Ceil(x) == Ceil(y);
      Interpolated(s[Floor(x)], s[Ceil(x)], x - Floor(x) as real, y - Floor(y) as real);
    } else if Floor(x) != Floor(y) || Ceil(x) == Floor(x) {
      assert Ceil(x) <= Floor(y);
    }
  }

  /** A higher quantile is never smaller, and every quantile lies between least and greatest value. */
  lemma QuantileMonotone(s: seq<real>, p: real, q: real)
    requires Sorted(s) && 0.0 <= p <= q <= 1.0
    ensures Quantile(s, p) <= Quantile(s, q)
    ensures s != [] ==> s[0] <= Quantile(s, p) && Quantile(s, q) <= s[|s| - 1]
  {
    if s != [] {
      PositionInRange(|s|, p);
      PositionInRange(|s|, q);
      PositionMonotone(|s|, p, q);
      AtMonotone(s, Position(|s|, p), Position(|s|, q));
      AtBetween(s, Position(|s|, p));
      AtBetween(s, Position(|s|, q));
    }
  }

  // ---- what a quantile is -----------------------------------------------------------------

  /** `x` is the value of the sorted `t` at the fractional position q*(n-1): the value there when that is
      whole, and on the line between the two values around it otherwise. */
  ghost predicate Interpolates(t: seq<real>, q: real, x: real)
    requires t != []
  {
    forall k: nat :: k < |t| ==> InterpolatesAt(t, q, k, x)
  }

  ghost predicate InterpolatesAt(t: seq<real>, q: real, k: nat, x: real)
    requires k < |t|
  {
    var pos := q * (|t| - 1) as real;
    && (pos == k as real ==> x == t[k])
    && (k as real <= pos <= (k + 1) as real && k + 1 < |t| ==> x == t[k] + (pos - k as real) * (t[k + 1] - t[k]))
  }

  lemma OnTheLine(x: real, y: real, f: real)
    ensures x * (1.0 - f) + y * f == x + f * (y - x)
  {
  }

  lemma FloorIs(pos: real, k: int)
    requires k as real <= pos <= (k + 1) as real
    ensures pos < (k + 1) as real ==> Floor(pos) == k
    ensures k as real < pos ==> Ceil(pos) == k + 1
    ensures pos == k as real ==> Floor(pos) == Ceil(pos) == k
    ensures pos == (k + 1) as real ==> Floor(pos) == Ceil(pos) == k + 1
  {
  }

  lemma AtInterpolates(t: seq<real>, q: real, k: nat)
    requires 0.0 <= q <= 1.0 && k < |t|
    ensures InterpolatesAt(t, q, k, Quantile(t, q))
  {
    var pos := Position(|t|, q);
    PositionInRange(|t|, q);
    if k as real <= pos <= (k + 1) as real {
      FloorIs(pos, k);
      if k + 1 < |t| { OnTheLine(t[k], t[k + 1], pos - k as real); }
    }
  }

  /** Every quantile interpolates linearly; of nothing it is zero. */
  lemma QuantileInterpolates(t: seq<real>, q: real)
    requires 0.0 <= q <= 1.0
    ensures if t == [] then Quantile(t, q) == 0.0 else Interpolates(t, q, Quantile(t, q))
  {
    forall k: nat | k < |t| ensures InterpolatesAt(t, q, k, Quantile(t, q)) {
      AtInterpolates(t, q, k);
    }
  }

  /** The middle of a sorted sequence: its middle value, or the mean of the two middle ones. */
  function Middle(t: seq<real>): real
    requires t != []
  {
    if |t| % 2 == 1 then t[|t| / 2] else (t[|t| / 2 - 1] + t[|t| / 2]) / 2.0
  }

  lemma HalfWay(k: nat)
    ensures 0.5 * (2 * k) as real == k as real
    ensures 0.5 * (2 * k + 1) as real == k as real + 0.5
  {
  }

  lemma MedianIsMiddle(t: seq<real>)
    requires t != []
    ensures Quantile(t, 0.5) == Middle(t)
  {
    var k := (|t| - 1) / 2;
    HalfWay(k);
    QuantileInterpolates(t, 0.5);
    assert InterpolatesAt(t, 0.5, k, Quantile(t, 0.5));
    if |t| % 2 == 0 { assert |t| - 1 == 2 * k + 1; }
  }

  // ---- counting ---------------------------------------------------------------------------

  /** How many values lie in [a, b]. */
  function CountIn(s: seq<real>, a: real, b: real): nat {
    if s == [] then 0
    else CountIn(s[..|s| - 1], a, b) + if a <= s[|s| - 1] <= b then 1 else 0
  }

  lemma {:induction false} CountInsert(s: seq<real>, x: real, a: real, b: real)
    ensures CountIn(Insert(s, x), a, b) == CountIn(s, a, b) + if a <= x <= b then 1 else 0
  {
    if s == [] || s[|s| - 1] <= x {
      assert (s + [x])[..|s|] == s;
    } else {
      var init, last := s[..|s| - 1], s[|s| - 1];
      CountInsert(init, x, a, b);
      assert (Insert(init, x) + [last])[..|Insert(init, x)|] == Insert(init, x);
    }
  }

  lemma {:induction false} CountSort(s: seq<real>, a: real, b: real)
    ensures CountIn(Sort(s), a, b) == CountIn(s, a, b)
  {
    if s != [] {
      CountSort(s[..|s| - 1], a, b);
      CountInsert(Sort(s[..|s| - 1]), s[|s| - 1], a, b);
    }
  }

  lemma {:induction false} CountOutside(s: seq<real>, a: real, b: real, i: nat)
    requires i <= |s|
    ensures (forall j :: 0 <= j < i ==> s[j] < a) ==> CountIn(s, a, b) <= |s| - i
    ensures (forall j :: i <= j < |s| ==> s[j] > b) ==> CountIn(s, a, b) <= i
    ensures CountIn(s, a, b) <= |s|
  {
    if s != [] {
      var init := s[..|s| - 1];
      if i < |s| {
        CountOutside(init, a, b, i);
      } else {
        CountOutside(init, a, b, i - 1);
      }
    }
  }

  lemma MiddlePositions(n: nat)
    requires n > 0
    ensures Floor(Position(n, 0.5)) == (n - 1) / 2 && Ceil(Position(n, 0.5)) == n / 2
  {
    var k := n - 1;
    if k % 2 == 0 {
      assert 0.5 * k as real == (k / 2) as real;
    } else {
      assert 0.5 * k as real == (k / 2) as real + 0.5;
    }
  }

  lemma MajorityCoversMiddle(t: seq<real>, a: real, b: real)
    requires Sorted(t) && 2 * CountIn(t, a, b) > |t| && t != []
    ensures a <= t[(|t| - 1) / 2] && t[|t| / 2] <= b
  {
    var lo, hi := (|t| - 1) / 2, |t| / 2;
    if t[lo] < a {
      forall j | 0 <= j < lo + 1 ensures t[j] < a {
        assert j < lo ==> t[j] <= t[lo];
      }
      CountOutside(t, a, b, lo + 1);
    }
    if t[hi] > b {
      forall j | hi <= j < |t| ensures t[j] > b {
        assert hi < j ==> t[hi] <= t[j];
      }
      CountOutside(t, a, b, hi);
    }
  }

  /** If more than half of the values lie in [a, b], so does the median, whatever the rest are. */
  lemma MedianOfMajority(s: seq<real>, a: real, b: real)
    requires 2 * CountIn(s, a, b) > |s|
    ensures s != [] && a <= Quantile(Sort(s), 0.5) <= b
  {
    CountOutside(s, a, b, 0);
    SortSorts(s);
    CountSort(s, a, b);
    MiddlePositions(|s|);
    AtBetween(Sort(s), Position(|s|, 0.5));
    MajorityCoversMiddle(Sort(s), a, b);
  }
}
