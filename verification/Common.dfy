/** Small definitions shared by every component. */
module Common {

  datatype Option<+T> = None | Some(value: T)

  /** Instants count nanoseconds from 1 January of year 1 UTC, as Go's clock does,
      so the zero `time.Time` is 0 and a UTC day starts at every multiple of DAY. */
  type Time = int

  const ZERO_TIME: Time := 0
  const SECOND: int := 1_000_000_000
  const MINUTE: int := 60 * SECOND
  const DAY: int := 1440 * MINUTE

  function DateOf(t: Time): int { t / DAY }

  function MaxReal(a: real, b: real): real { if a < b then b else a }

  function MinReal(a: real, b: real): real { if b < a then b else a }

  function Abs(x: real): real { if x < 0.0 then -x else x }

  function Floor(x: real): int { x.Floor }

  function Ceil(x: real): int { -((-x).Floor) }

  /** math.Round: halves go away from zero. */
  function Round(x: real): int {
    if x >= 0.0 then (x + 0.5).Floor else -((0.5 - x).Floor)
  }

  function Round2(x: real): real { Round(x * 100.0) as real / 100.0 }

  function Round1(x: real): real { Round(x * 10.0) as real / 10.0 }

  /** No two elements share a non-empty id. */
  ghost predicate UniqueIds<T>(s: seq<T>, id: T -> string) {
    forall i, j :: 0 <= i < j < |s| && id(s[i]) != "" ==> id(s[i]) != id(s[j])
  }

  lemma RoundMonotone(x: real, y: real)
    requires x <= y
    ensures Round(x) <= Round(y)
  {
  }

  lemma Round2Monotone(x: real, y: real)
    requires x <= y
    ensures Round2(x) <= Round2(y)
  {
    RoundMonotone(x * 100.0, y * 100.0);
  }

  /** The nearest whole number; of two equally near ones that farther from zero. */
  lemma RoundNearest(x: real)
    ensures x >= 0.0 ==> Round(x) as real - 0.5 <= x < Round(x) as real + 0.5
    ensures x < 0.0 ==> Round(x) as real - 0.5 < x <= Round(x) as real + 0.5
  {
  }

  /** Rounding to two places moves a figure by half a hundredth at most. */
  lemma Round2Nearest(x: real)
    ensures Abs(Round2(x) - x) <= 0.005
    ensures (Round2(x) * 100.0).Floor as real == Round2(x) * 100.0
  {
    RoundNearest(x * 100.0);
    assert Round2(x) * 100.0 == Round(x * 100.0) as real;
  }

  /** A map that differs at one key only. */
  lemma Patched<K, V>(before: map<K, V>, after: map<K, V>, k: K)
    requires after.Keys == before.Keys + {k} && forall j :: j in after && j != k ==> after[j] == before[j]
    ensures after == before[k := after[k]]
  {
  }

  lemma {:induction false} SubsetSize<T>(a: set<T>, b: set<T>)
    requires a <= b
    ensures |a| <= |b|
  {
    if a != {} {
      var x :| x in a;
      SubsetSize(a - {x}, b - {x});
    }
  }
}
