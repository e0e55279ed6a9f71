/** Cron expressions (internal/sched/sched.go): the field matcher and the window search. */
module Cron {
  import opened Common

  // ---- strings ----------------------------------------------------------------------------

  const MAX_INT: int := 0x7FFF_FFFF_FFFF_FFFF

  predicate IsDigit(c: char) { '0' <= c <= '9' }

  predicate AllDigits(s: string) { forall c | c in s :: IsDigit(c) }

  function DigitsValue(s: string): (v: nat)
    requires AllDigits(s)
  {
    if s == [] then 0
    else
      assert IsDigit(s[|s| - 1]) && forall c :: c in s[..|s| - 1] ==> c in s;
      10 * DigitsValue(s[..|s| - 1]) + (s[|s| - 1] as int - '0' as int)
  }

  /** strconv.Atoi, for 64-bit integers. */
  function Atoi(s: string): Option<int> {
    var signed := s != [] && (s[0] == '-' || s[0] == '+');
    var digits := if signed then s[1..] else s;
    if digits == [] || !AllDigits(digits) then None
    else
      var v: int := if signed && s[0] == '-' then 0 - DigitsValue(digits) else DigitsValue(digits);
      if -MAX_INT - 1 <= v <= MAX_INT then Some(v) else None
  }

  /** strings.IndexByte; the length of the string when the character does not occur. */
  function IndexOf(s: string, c: char): (i: nat)
    ensures i <= |s| && c !in s[..i] && (i < |s| ==> s[i] == c)
    ensures i == |s| <==> c !in s
  {
    if s == [] || s[0] == c then 0
    else
      assert s == [s[0]] + s[1..];
      var i := 1 + IndexOf(s[1..], c);
      assert s[..i] == [s[0]] + s[1..][..i - 1];
      i
  }

  /** strings.Split on a single character. */
  function Split(s: string, c: char): (parts: seq<string>)
    ensures parts != []
    decreases |s|
  {
    var i := IndexOf(s, c);
    if i == |s| then [s] else [s[..i]] + Split(s[i + 1..], c)
  }

  function Join(parts: seq<string>, c: char): string
    requires parts != []
  {
    if |parts| == 1 then parts[0] else parts[0] + [c] + Join(parts[1..], c)
  }

  lemma {:induction false} FirstIndex(a: string, c: char, b: string)
    requires c !in a
    ensures IndexOf(a + [c] + b, c) == |a|
  {
    if a == [] {
      assert (a + [c] + b)[0] == c;
    } else {
      assert (a + [c] + b)[1..] == a[1..] + [c] + b;
      assert (a + [c] + b)[0] == a[0] && a[0] in a;
      FirstIndex(a[1..], c, b);
    }
  }

  /** Splitting what was joined gives the parts back. */
  lemma {:induction false} SplitJoin(parts: seq<string>, c: char)
    requires parts != [] && forall p :: p in parts ==> c !in p
    ensures Split(Join(parts, c), c) == parts
  {
    var first := parts[0];
    assert first in parts;
    if |parts| > 1 {
      var rest := Join(parts[1..], c);
      FirstIndex(first, c, rest);
      var s := first + [c] + rest;
      assert s[..|first|] == first && s[|first| + 1..] == rest;
      SplitJoin(parts[1..], c);
      assert parts == [first] + parts[1..];
    }
  }

  // ---- decimal numbers --------------------------------------------------------------------

  function Decimal(n: nat): (s: string)
    ensures s != [] && AllDigits(s)
  {
    if n < 10 then [('0' as int + n) as char] else Decimal(n / 10) + [('0' as int + n % 10) as char]
  }

  lemma {:induction false} DecimalValue(n: nat)
    ensures DigitsValue(Decimal(n)) == n
  {
    var s := Decimal(n);
    if n >= 10 {
      DecimalValue(n / 10);
      assert s[..|s| - 1] == Decimal(n / 10);
    }
  }

  /** Reading a printed number gives the number back. */
  lemma AtoiDecimal(n: nat)
    requires n <= MAX_INT
    ensures Atoi(Decimal(n)) == Some(n)
  {
    DecimalValue(n);
    assert Decimal(n)[0] in Decimal(n);
  }

  // ---- one field --------------------------------------------------------------------------

  /** The step behind a slash; 1 where there is none, or none that is positive. */
  function StepOf(part: string): (step: int)
    ensures step > 0
  {
    var i := IndexOf(part, '/');
    if i == |part| then 1
    else
      var s := Atoi(part[i + 1..]);
      if s.Some? && s.value > 0 then s.value else 1
  }

  function ExprOf(part: string): string { part[..IndexOf(part, '/')] }

  /** The bounds of a part in front of its step; `None` for a part that is skipped. */
  function BoundsOf(expr: string, min: int, max: int): Option<(int, int)> {
    if expr == "*" || expr == "" then Some((min, max))
    else if '-' in expr then
      var i := IndexOf(expr, '-');
      var a, b := Atoi(expr[..i]), Atoi(expr[i + 1..]);
      if a.None? || b.None? then None else Some((a.value, b.value))
    else
      var n := Atoi(expr);
      if n.None? then None else Some((n.value, n.value))
  }

  function PartMatch(part: string, v: int, min: int, max: int): bool {
    var b := BoundsOf(ExprOf(part), min, max);
    b.Some? && b.value.0 <= v <= b.value.1 && (v - b.value.0) % StepOf(part) == 0
  }

  ghost predicate FieldMatch(field: string, v: int, min: int, max: int) {
    exists part :: part in Split(field, ',') && PartMatch(part, v, min, max)
  }

  method ReadPart(part: string, min: int, max: int) returns (bounds: Option<(int, int)>, step: int)
    ensures bounds == BoundsOf(ExprOf(part), min, max) && step == StepOf(part)
  {
    var expr;
    expr, step := part, 1;
    var i := IndexOf(part, '/');
    if i < |part| {
      expr := part[..i];
      var s := Atoi(part[i + 1..]);
      if s.Some? && s.value > 0 {
        step := s.value;
      }
    }
    assert expr == ExprOf(part);
    if expr == "*" || expr == "" {
      bounds := Some((min, max));
    } else if '-' in expr {
      var d := IndexOf(expr, '-');
      var a, b := Atoi(expr[..d]), Atoi(expr[d + 1..]);
      bounds := if a.None? || b.None? then None else Some((a.value, b.value));
    } else {
      var n := Atoi(expr);
      bounds := if n.None? then None else Some((n.value, n.value));
    }
  }

  /** One pass of the loop: does this part match? */
  method MatchPart(part: string, v: int, min: int, max: int) returns (matches: bool)
    ensures matches == PartMatch(part, v, min, max)
  {
    var bounds, step := ReadPart(part, min, max);
    if bounds.None? {
      return false;
    }
    return v >= bounds.value.0 && v <= bounds.value.1 && (v - bounds.value.0) % step == 0;
  }

  predicate AnyPart(parts: seq<string>, k: nat, v: int, min: int, max: int)
    requires k <= |parts|
  {
    k > 0 && (AnyPart(parts, k - 1, v, min, max) || PartMatch(parts[k - 1], v, min, max))
  }

  lemma {:induction false} AnyPartIs(parts: seq<string>, k: nat, v: int, min: int, max: int)
    requires k <= |parts|
    ensures AnyPart(parts, k, v, min, max) <==> exists i :: 0 <= i < k && PartMatch(parts[i], v, min, max)
  {
    if k > 0 { AnyPartIs(parts, k - 1, v, min, max); }
  }

  lemma {:induction false} AnyPartStays(parts: seq<string>, k: nat, n: nat, v: int, min: int, max: int)
    requires k <= n <= |parts| && AnyPart(parts, k, v, min, max)
    ensures AnyPart(parts, n, v, min, max)
  {
    if k < n { AnyPartStays(parts, k, n - 1, v, min, max); }
  }

  /** cronFieldMatch. */
  method CronFieldMatch(field: string, v: int, min: int, max: int) returns (matches: bool)
    ensures matches == FieldMatch(field, v, min, max)
  {
    var parts := Split(field, ',');
    matches := MatchAny(parts, v, min, max);
    AnyPartIs(parts, |parts|, v, min, max);
  }

  method MatchAny(parts: seq<string>, v: int, min: int, max: int) returns (matches: bool)
    ensures matches == AnyPart(parts, |parts|, v, min, max)
  {
    for k := 0 to |parts|
      invariant !AnyPart(parts, k, v, min, max)
    {
      var m := MatchPart(parts[k], v, min, max);
      if m {
        AnyPartStays(parts, k + 1, |parts|, v, min, max);
        return true;
      }
    }
    return false;
  }

  // ---- what a field means -----------------------------------------------------------------

  datatype Range = Star | Number(n: nat) | Span(lo: nat, hi: nat)

  /** One element of a field's comma list: a range, and a step if one is written. */
  datatype Item = Item(range: Range, step: Option<nat>)

  /** The numbers a field can be written with: what fits an integer, and steps of at least one. */
  predicate Writable(item: Item) {
    && (item.step.Some? ==> 0 < item.step.value <= MAX_INT)
    && match item.range
       case Star => true
       case Number(n) => n <= MAX_INT
       case Span(lo, hi) => lo <= MAX_INT && hi <= MAX_INT
  }

  function PrintRange(r: Range): string {
    match r
    case Star => "*"
    case Number(n) => Decimal(n)
    case Span(lo, hi) => Decimal(lo) + "-" + Decimal(hi)
  }

  function Print(item: Item): string {
    PrintRange(item.range) + if item.step.Some? then "/" + Decimal(item.step.value) else ""
  }

  function PrintAll(items: seq<Item>): (ps: seq<string>)
    ensures |ps| == |items| && forall i :: 0 <= i < |ps| ==> ps[i] == Print(items[i])
  {
    seq(|items|, i requires 0 <= i < |items| => Print(items[i]))
  }

  function PrintField(items: seq<Item>): string
    requires items != []
  {
    Join(PrintAll(items), ',')
  }

  function Low(r: Range, min: int): int { if r.Star? then min else if r.Number? then r.n else r.lo }

  function High(r: Range, max: int): int { if r.Star? then max else if r.Number? then r.n else r.hi }

  function Stride(item: Item): int { if item.step.Some? then item.step.value else 1 }

  /** The values of an item: its range, every `step` from its lower end on. */
  ghost predicate Contains(item: Item, v: int, min: int, max: int) {
    Low(item.range, min) <= v <= High(item.range, max) && exists k: nat :: Reaches(item, v, min, k)
  }

  predicate Reaches(item: Item, v: int, min: int, k: nat) { v == Low(item.range, min) + k * Stride(item) }

  lemma DigitsOnly(n: nat, c: char)
    requires !IsDigit(c)
    ensures c !in Decimal(n)
  {
  }

  lemma RangeText(r: Range, c: char)
    requires c == ',' || c == '/'
    ensures c !in PrintRange(r)
  {
    match r
    case Star =>
    case Number(n) => DigitsOnly(n, c);
    case Span(lo, hi) => DigitsOnly(lo, c); DigitsOnly(hi, c);
  }

  lemma PrintParts(item: Item)
    requires Writable(item)
    ensures ExprOf(Print(item)) == PrintRange(item.range) && StepOf(Print(item)) == Stride(item)
    ensures ',' !in Print(item)
  {
    var expr := PrintRange(item.range);
    RangeText(item.range, '/');
    RangeText(item.range, ',');
    if item.step.Some? {
      var step := Decimal(item.step.value);
      DigitsOnly(item.step.value, ',');
      FirstIndex(expr, '/', step);
      assert Print(item) == expr + ['/'] + step;
      assert Print(item)[..|expr|] == expr && Print(item)[|expr| + 1..] == step;
      AtoiDecimal(item.step.value);
    } else {
      assert Print(item) == expr;
    }
  }

  lemma RangeBounds(r: Range, min: int, max: int)
    requires Writable(Item(r, None))
    ensures BoundsOf(PrintRange(r), min, max) == Some((Low(r, min), High(r, max)))
  {
    match r
    case Star =>
    case Number(n) =>
      AtoiDecimal(n);
      DigitsOnly(n, '-');
      DigitsOnly(n, '*');
      assert Decimal(n)[0] in Decimal(n);
    case Span(lo, hi) =>
      var a, b := Decimal(lo), Decimal(hi);
      DigitsOnly(lo, '-');
      FirstIndex(a, '-', b);
      var s := PrintRange(r);
      assert s == a + ['-'] + b && s[|a|] == '-';
      assert s[..|a|] == a && s[|a| + 1..] == b;
      AtoiDecimal(lo);
      AtoiDecimal(hi);
  }

  lemma StepsReach(item: Item, v: int, min: int)
    requires Writable(item) && Low(item.range, min) <= v
    ensures (v - Low(item.range, min)) % Stride(item) == 0 <==> exists k: nat :: Reaches(item, v, min, k)
  {
    var d, step := v - Low(item.range, min), Stride(item);
    if d % step == 0 {
      assert d == d / step * step;
      assert Reaches(item, v, min, d / step);
    }
    if k: nat :| Reaches(item, v, min, k) {
      Multiple(k, step);
    }
  }

  lemma Multiple(k: nat, step: int)
    requires step > 0
    ensures k * step % step == 0
  {
    var q := k * step / step;
    assert k * step == step * q + k * step % step;
    if k < q { Times(step, k, q); }
    if k > q { Times(step, q, k); }
  }

  lemma Times(n: int, x: int, y: int)
    requires n > 0 && x < y
    ensures n * x + n <= n * y
  {
    assert n * (y - x - 1) >= 0;
  }

  /** The matcher reads a printed field as the set it stands for: every star, number and range, with
      or without a step, in any comma list. */
  lemma FieldMeansMembership(items: seq<Item>, v: int, min: int, max: int)
    requires items != [] && forall item :: item in items ==> Writable(item)
    ensures FieldMatch(PrintField(items), v, min, max) <==> exists item :: item in items && Contains(item, v, min, max)
  {
    var parts := PrintAll(items);
    forall p | p in parts ensures ',' !in p {
      var i :| 0 <= i < |parts| && parts[i] == p;
      assert items[i] in items;
      PrintParts(items[i]);
    }
    SplitJoin(parts, ',');
    forall i | 0 <= i < |items| ensures PartMatch(parts[i], v, min, max) == Contains(items[i], v, min, max) {
      assert items[i] in items;
      PartMeans(items[i], v, min, max);
    }
    if item :| item in items && Contains(item, v, min, max) {
      var i :| 0 <= i < |items| && items[i] == item;
      assert parts[i] in parts;
    }
    if part :| part in parts && PartMatch(part, v, min, max) {
      var i :| 0 <= i < |parts| && parts[i] == part;
      assert items[i] in items;
    }
  }

  lemma PartMeans(item: Item, v: int, min: int, max: int)
    requires Writable(item)
    ensures PartMatch(Print(item), v, min, max) == Contains(item, v, min, max)
  {
    PrintParts(item);
    RangeBounds(item.range, min, max);
    var low, high, step := Low(item.range, min), High(item.range, max), Stride(item);
    assert PartMatch(Print(item), v, min, max) == (low <= v <= high && (v - low) % step == 0);
    if low <= v { StepsReach(item, v, min); }
  }
}
