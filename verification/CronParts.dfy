/** What one element of a cron field means as text, malformed ones included (cronFieldMatch in
    internal/sched/sched.go). */
module CronParts {
  import opened Common
  import opened Cron

  // ---- numbers ----------------------------------------------------------------------------

  predicate Digits(s: string) { s != [] && forall i :: 0 <= i < |s| ==> '0' <= s[i] <= '9' }

  lemma DigitsAreDigits(s: string)
    requires Digits(s)
    ensures AllDigits(s)
  {
    forall c | c in s ensures IsDigit(c) {
      var i :| 0 <= i < |s| && s[i] == c;
    }
  }

  /** Leading zeros do not count. */
  lemma {:induction false} LeadingZero(s: string)
    requires AllDigits(s)
    ensures AllDigits(['0'] + s) && DigitsValue(['0'] + s) == DigitsValue(s)
  {
    var more := ['0'] + s;
    if s == [] {
      assert more[..0] == [];
    } else {
      assert forall c :: c in s[..|s| - 1] ==> c in s;
      LeadingZero(s[..|s| - 1]);
      assert more[..|more| - 1] == ['0'] + s[..|s| - 1] && more[|more| - 1] == s[|s| - 1];
    }
  }

  /** A number is digits, with a sign or without, whose value fits into 64 bits. */
  lemma AtoiReads(d: string)
    requires Digits(d)
    ensures AllDigits(d)
    ensures var v: int := DigitsValue(d);
            && Atoi(d) == Atoi(['+'] + d) == (if v <= MAX_INT then Some(v) else None)
            && Atoi(['-'] + d) == if v <= MAX_INT + 1 then Some(-v) else None
  {
    DigitsAreDigits(d);
    assert (['+'] + d)[1..] == d && (['-'] + d)[1..] == d;
    assert d[0] in d;
  }

  /** Anything else is not one. */
  lemma AtoiRefuses(s: string)
    requires !Digits(s) && !(s != [] && s[0] in ['+', '-'] && Digits(s[1..]))
    ensures Atoi(s) == None
  {
    var digits := if s != [] && (s[0] == '-' || s[0] == '+') then s[1..] else s;
    if digits != [] && AllDigits(digits) {
      forall i | 0 <= i < |digits| ensures '0' <= digits[i] <= '9' {
        assert digits[i] in digits && IsDigit(digits[i]);
      }
      assert Digits(digits);
    }
  }

  // ---- elements ---------------------------------------------------------------------------

  lemma NoSlash(e: string)
    requires '/' !in e
    ensures ExprOf(e) == e && StepOf(e) == 1
  {
    assert e[..|e|] == e;
  }

  /** An element without a step or a range: everything, or one number; what is no number matches nothing. */
  lemma PlainExactly(e: string, v: int, min: int, max: int)
    requires '/' !in e && '-' !in e
    ensures PartMatch(e, v, min, max) <==> if e == "" || e == "*" then min <= v <= max else Atoi(e) == Some(v)
  {
    NoSlash(e);
  }

  lemma RangeParts(a: string, b: string)
    requires '-' !in a
    ensures var e := a + ['-'] + b; IndexOf(e, '-') == |a| && e[..|a|] == a && e[|a| + 1..] == b && '-' in e
  {
    FirstIndex(a, '-', b);
    var e := a + ['-'] + b;
    assert e[|a|] == '-';
  }

  /** A range: both bounds must be numbers, the first dash separates them, and the field's own limits do
      not matter. */
  lemma RangeExactly(a: string, b: string, v: int, min: int, max: int)
    requires '-' !in a && '/' !in a && '/' !in b
    ensures PartMatch(a + ['-'] + b, v, min, max)
       <==> Atoi(a).Some? && Atoi(b).Some? && Atoi(a).value <= v <= Atoi(b).value
  {
    var e := a + ['-'] + b;
    RangeParts(a, b);
    assert '/' !in e;
    NoSlash(e);
    assert e != "" && e != "*" by { assert '-' in e && '-' !in "*"; }
  }

  lemma StepParts(e: string, st: string)
    requires '/' !in e
    ensures var part := e + ['/'] + st;
            && ExprOf(part) == e
            && StepOf(part) == if Atoi(st).Some? && Atoi(st).value > 0 then Atoi(st).value else 1
  {
    FirstIndex(e, '/', st);
    var part := e + ['/'] + st;
    assert part[..|e|] == e && part[|e| + 1..] == st;
  }

  /** A step thins out what the element matches, from its lower bound on; a step that is no positive number
      is ignored. */
  lemma StepExactly(e: string, st: string, v: int, min: int, max: int)
    requires '/' !in e
    ensures PartMatch(e + ['/'] + st, v, min, max)
       <==> && BoundsOf(e, min, max).Some? && PartMatch(e, v, min, max)
            && (Atoi(st).Some? && Atoi(st).value > 0 ==>
                  (v - BoundsOf(e, min, max).value.0) % Atoi(st).value == 0)
  {
    NoSlash(e);
    StepParts(e, st);
  }
}
