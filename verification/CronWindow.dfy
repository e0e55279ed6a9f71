/** When a cron line fires around an instant (MatchesTime in internal/sched/sched.go). */
module CronWindow {
  import opened Common
  import opened Cron

  // ---- the fields of a line ---------------------------------------------------------------

  /** unicode.IsSpace. */
  predicate IsSpace(c: char) {
    || '\t' <= c <= '\r' || c == ' ' || c == '\U{0085}' || c == '\U{00A0}' || c == '\U{1680}'
    || '\U{2000}' <= c <= '\U{200a}' || c == '\U{2028}' || c == '\U{2029}' || c == '\U{202f}' || c == '\U{205f}' || c == '\U{3000}'
  }

  /** The characters that separate words: the white space of Unicode, one by one. */
  const SPACES := "\t\n\U{0B}\U{0C}\r \U{85}\U{A0}\U{1680}\U{2000}\U{2001}\U{2002}\U{2003}\U{2004}\U{2005}\U{2006}\U{2007}"
                  + "\U{2008}\U{2009}\U{200A}\U{2028}\U{2029}\U{202F}\U{205F}\U{3000}"

  lemma SpacesAre(c: char)
    ensures IsSpace(c) <==> c in SPACES
  {
  }

  /** How many characters the word at the head of `s` has. */
  function WordLength(s: string): (n: nat)
    ensures n <= |s|
  {
    if s == [] || IsSpace(s[0]) then 0 else 1 + WordLength(s[1..])
  }

  /** strings.Fields. */
  function Fields(s: string): seq<string>
    decreases |s|
  {
    if s == [] then []
    else if IsSpace(s[0]) then Fields(s[1..])
    else [s[..WordLength(s)]] + Fields(s[WordLength(s)..])
  }

  predicate IsWord(s: string) { s != [] && forall c | c in s :: !IsSpace(c) }

  lemma {:induction false} WordThenSpace(w: string, rest: string)
    requires (forall c | c in w :: !IsSpace(c)) && (rest == [] || IsSpace(rest[0]))
    ensures WordLength(w + rest) == |w|
  {
    if w == [] {
      assert w + rest == rest;
    } else {
      assert (w + rest)[1..] == w[1..] + rest && (w + rest)[0] == w[0] && w[0] in w;
      WordThenSpace(w[1..], rest);
    }
  }

  predicate IsBlank(s: string) { forall c | c in s :: IsSpace(c) }

  /** Words set apart by white space; `gaps[i]` is what follows word `i`. */
  function Spaced(lead: string, words: seq<string>, gaps: seq<string>): string
    requires |gaps| == |words|
    decreases words
  {
    if words == [] then lead else lead + (words[0] + Spaced(gaps[0], words[1..], gaps[1..]))
  }

  predicate Separates(lead: string, words: seq<string>, gaps: seq<string>) {
    && |gaps| == |words| && IsBlank(lead)
    && forall i :: 0 <= i < |gaps| ==> IsBlank(gaps[i]) && (i + 1 < |gaps| ==> gaps[i] != [])
  }

  lemma {:induction false} SkipBlank(blank: string, rest: string)
    requires IsBlank(blank)
    ensures Fields(blank + rest) == Fields(rest)
  {
    if blank == [] {
      assert blank + rest == rest;
    } else {
      assert (blank + rest)[1..] == blank[1..] + rest && (blank + rest)[0] == blank[0] && blank[0] in blank;
      SkipBlank(blank[1..], rest);
    }
  }

  /** Fields yields the words of a line, whatever white space leads, separates and follows them. */
  lemma {:induction false} FieldsOfSpaced(lead: string, words: seq<string>, gaps: seq<string>)
    requires Separates(lead, words, gaps) && forall w :: w in words ==> IsWord(w)
    ensures Fields(Spaced(lead, words, gaps)) == words
    decreases words
  {
    if words == [] {
      SkipBlank(lead, []);
      assert lead + [] == lead;
    } else {
      var w, rest := words[0], Spaced(gaps[0], words[1..], gaps[1..]);
      assert w in words && w[0] in w;
      SkipBlank(lead, w + rest);
      assert rest == [] || IsSpace(rest[0]) by {
        if gaps[0] != [] { assert gaps[0][0] in gaps[0] && rest[0] == gaps[0][0]; }
      }
      WordThenSpace(w, rest);
      assert (w + rest)[..|w|] == w && (w + rest)[|w|..] == rest && (w + rest)[0] == w[0];
      forall i | 0 <= i < |gaps[1..]| ensures IsBlank(gaps[1..][i]) && (i + 1 < |gaps[1..]| ==> gaps[1..][i] != []) {
        assert gaps[1..][i] == gaps[i + 1];
      }
      FieldsOfSpaced(gaps[0], words[1..], gaps[1..]);
      assert words == [w] + words[1..];
    }
  }

  // ---- the window -------------------------------------------------------------------------

  /** The civil reading of an instant; the calendar itself is not part of this model. */
  datatype Civil = Civil(minute: int, hour: int, day: int, month: int, weekday: int)

  /** All five fields hold; there is no special case for day of month and day of week. */
  ghost predicate Fires(fields: seq<string>, c: Civil)
    requires |fields| >= 5
  {
    && FieldMatch(fields[0], c.minute, 0, 59)
    && FieldMatch(fields[1], c.hour, 0, 23)
    && FieldMatch(fields[2], c.day, 1, 31)
    && FieldMatch(fields[3], c.month, 1, 12)
    && FieldMatch(fields[4], c.weekday, 0, 6)
  }

  /** The instants looked at lie in the window, whole minutes from its beginning. */
  predicate Looked(t: Time, tolerance: int, u: Time) {
    t - tolerance <= u <= t + tolerance && (u - (t - tolerance)) % MINUTE == 0
  }

  ghost predicate Matches(fields: seq<string>, t: Time, tolerance: int, clock: Time -> Civil) {
    |fields| >= 5 && exists u :: Looked(t, tolerance, u) && Fires(fields, clock(u))
  }

  method FiresAt(fields: seq<string>, c: Civil) returns (fires: bool)
    requires |fields| >= 5
    ensures fires == Fires(fields, c)
  {
    fires := CronFieldMatch(fields[0], c.minute, 0, 59);
    if fires { fires := CronFieldMatch(fields[1], c.hour, 0, 23); }
    if fires { fires := CronFieldMatch(fields[2], c.day, 1, 31); }
    if fires { fires := CronFieldMatch(fields[3], c.month, 1, 12); }
    if fires { fires := CronFieldMatch(fields[4], c.weekday, 0, 6); }
  }

  /** MatchesTime. */
  method MatchesTime(cronExpr: string, t: Time, tolerance: int, clock: Time -> Civil) returns (matches: bool)
    ensures matches == Matches(Fields(cronExpr), t, tolerance, clock)
  {
    var fields := Fields(cronExpr);
    if |fields| < 5 {
      return false;
    }
    var off := -tolerance;
    while off <= tolerance
      invariant (off + tolerance) % MINUTE == 0 && off >= -tolerance
      invariant forall u :: Looked(t, tolerance, u) && u < t + off ==> !Fires(fields, clock(u))
      decreases tolerance - off
    {
      var fires := FiresAt(fields, clock(t + off));
      LookedAt(t, tolerance, off);
      if fires {
        return true;
      }
      forall u | Looked(t, tolerance, u) && t + off < u ensures t + off + MINUTE <= u {
        NextMultiple(off + tolerance, u - (t - tolerance));
      }
      off := off + MINUTE;
    }
    return false;
  }

  lemma LookedAt(t: Time, tolerance: int, off: int)
    requires -tolerance <= off <= tolerance && (off + tolerance) % MINUTE == 0
    ensures Looked(t, tolerance, t + off) && (off + MINUTE + tolerance) % MINUTE == 0
  {
    assert t + off - (t - tolerance) == off + tolerance;
  }

  lemma NextMultiple(a: int, b: int)
    requires a % MINUTE == 0 && b % MINUTE == 0 && a < b
    ensures a + MINUTE <= b
  {
  }

  // ---- what a line means ------------------------------------------------------------------

  /** A cron line: the items of its five fields. */
  datatype Line = Line(minute: seq<Item>, hour: seq<Item>, day: seq<Item>, month: seq<Item>, weekday: seq<Item>)

  predicate FieldOk(items: seq<Item>) { items != [] && forall item | item in items :: Writable(item) }

  predicate LineOk(l: Line) {
    FieldOk(l.minute) && FieldOk(l.hour) && FieldOk(l.day) && FieldOk(l.month) && FieldOk(l.weekday)
  }

  function Words(l: Line): seq<string>
    requires LineOk(l)
  {
    [PrintField(l.minute), PrintField(l.hour), PrintField(l.day), PrintField(l.month), PrintField(l.weekday)]
  }

  ghost predicate Holds(items: seq<Item>, v: int, min: int, max: int) {
    exists item :: item in items && Contains(item, v, min, max)
  }

  ghost predicate Means(l: Line, c: Civil) {
    && Holds(l.minute, c.minute, 0, 59) && Holds(l.hour, c.hour, 0, 23) && Holds(l.day, c.day, 1, 31)
    && Holds(l.month, c.month, 1, 12) && Holds(l.weekday, c.weekday, 0, 6)
  }

  lemma NoSpaces(s: string)
    requires forall c | c in s :: IsDigit(c) || c == '*' || c == '-' || c == '/' || c == ','
    ensures forall c | c in s :: !IsSpace(c)
  {
  }

  lemma ItemIsWord(item: Item)
    ensures IsWord(Print(item))
  {
    var r, s := PrintRange(item.range), Print(item);
    assert forall c | c in s :: IsDigit(c) || c == '*' || c == '-' || c == '/' || c == ',';
    NoSpaces(s);
  }

  lemma {:induction false} JoinIsWord(parts: seq<string>)
    requires parts != [] && forall p :: p in parts ==> IsWord(p)
    ensures IsWord(Join(parts, ','))
  {
    assert parts[0] in parts;
    if |parts| > 1 {
      JoinIsWord(parts[1..]);
      assert Join(parts, ',') == parts[0] + [','] + Join(parts[1..], ',');
    }
  }

  lemma FieldIsWord(items: seq<Item>)
    requires FieldOk(items)
    ensures IsWord(PrintField(items))
  {
    var parts := PrintAll(items);
    forall p | p in parts ensures IsWord(p) {
      var i :| 0 <= i < |parts| && parts[i] == p;
      ItemIsWord(items[i]);
    }
    JoinIsWord(parts);
  }

  lemma LineFires(l: Line, extra: seq<string>, c: Civil)
    requires LineOk(l)
    ensures Fires(Words(l) + extra, c) <==> Means(l, c)
  {
    FieldMeansMembership(l.minute, c.minute, 0, 59);
    FieldMeansMembership(l.hour, c.hour, 0, 23);
    FieldMeansMembership(l.day, c.day, 1, 31);
    FieldMeansMembership(l.month, c.month, 1, 12);
    FieldMeansMembership(l.weekday, c.weekday, 0, 6);
  }

  /** A printed line, whatever white space separates its fields and whatever follows the fifth,
      matches exactly when at some instant of the window, whole minutes from its beginning, every
      field holds the clock's value. */
  lemma LineMatchesExactlyWhen(l: Line, extra: seq<string>, lead: string, gaps: seq<string>,
      t: Time, tolerance: int, clock: Time -> Civil)
    requires LineOk(l) && (forall w :: w in extra ==> IsWord(w)) && Separates(lead, Words(l) + extra, gaps)
    ensures Matches(Fields(Spaced(lead, Words(l) + extra, gaps)), t, tolerance, clock)
       <==> exists u :: Looked(t, tolerance, u) && Means(l, clock(u))
  {
    var words := Words(l) + extra;
    FieldIsWord(l.minute);
    FieldIsWord(l.hour);
    FieldIsWord(l.day);
    FieldIsWord(l.month);
    FieldIsWord(l.weekday);
    FieldsOfSpaced(lead, words, gaps);
    forall u ensures Fires(words, clock(u)) <==> Means(l, clock(u)) {
      LineFires(l, extra, clock(u));
    }
  }

  // ---- a wider window ---------------------------------------------------------------------

  lemma LookedWider(t: Time, tolerance: int, wider: int, u: Time)
    requires tolerance <= wider && (wider - tolerance) % MINUTE == 0 && Looked(t, tolerance, u)
    ensures Looked(t, wider, u)
  {
    var a, b := u - (t - tolerance), wider - tolerance;
    assert u - (t - wider) == a + b;
    assert a == MINUTE * (a / MINUTE) && b == MINUTE * (b / MINUTE);
    assert a + b == MINUTE * (a / MINUTE + b / MINUTE);
  }

  /** Widening the window by whole minutes on each side never loses a match, whatever the clock. */
  lemma WholeMinutesMonotone(fields: seq<string>, t: Time, tolerance: int, wider: int, clock: Time -> Civil)
    requires tolerance <= wider && (wider - tolerance) % MINUTE == 0
    requires Matches(fields, t, tolerance, clock)
    ensures Matches(fields, t, wider, clock)
  {
    var u :| Looked(t, tolerance, u) && Fires(fields, clock(u));
    LookedWider(t, tolerance, wider, u);
  }

  /** How far from `t` the last instant lies that is looked at. */
  function LastOffset(tolerance: int): int { tolerance - 2 * tolerance % MINUTE }

  /** No line that matches somewhere under `tolerance` is lost under `wider`. */
  ghost predicate Lossless(tolerance: int, wider: int, clock: Time -> Civil) {
    forall fields: seq<string>, t: Time ::
      Matches(fields, t, tolerance, clock) ==> Matches(fields, t, wider, clock)
  }

  /** The clock shows the same throughout a minute. */
  ghost predicate ShowsMinutes(clock: Time -> Civil) {
    forall u: Time, v: Time :: u / MINUTE == v / MINUTE ==> clock(u) == clock(v)
  }

  lemma LookedLast(t: Time, tolerance: int, u: Time)
    requires tolerance >= 0
    ensures Looked(t, tolerance, t + LastOffset(tolerance))
    ensures Looked(t, tolerance, u) ==> u <= t + LastOffset(tolerance)
  {
    var span := 2 * tolerance;
    assert t + LastOffset(tolerance) - (t - tolerance) == span - span % MINUTE;
    if Looked(t, tolerance, u) {
      NoMultipleBetween(u - (t - tolerance), span);
    }
  }

  lemma NoMultipleBetween(a: int, span: int)
    requires a % MINUTE == 0 && 0 <= a <= span
    ensures a <= span - span % MINUTE
  {
  }

  /** Between its ends the wider grid has a point in every minute that the window touches. */
  lemma SameMinute(t: Time, wider: int, u: Time) returns (v: Time)
    requires wider >= 0 && t - wider <= u <= t + LastOffset(wider)
    ensures Looked(t, wider, v) && v / MINUTE == u / MINUTE
  {
    var first, last := t - wider, t + LastOffset(wider);
    LookedLast(t, wider, u);
    var low := u - (u - first) % MINUTE;
    GridPoint(u - first);
    if low / MINUTE == u / MINUTE {
      v := low;
    } else {
      v := low + MINUTE;
      NextPoint(low - first, last - first);
      NextMinute(low, u);
    }
  }

  lemma GridPoint(d: int)
    requires d >= 0
    ensures 0 <= d - d % MINUTE <= d && (d - d % MINUTE) % MINUTE == 0
  {
  }

  lemma NextPoint(a: int, b: int)
    requires a % MINUTE == 0 && b % MINUTE == 0
    ensures (a + MINUTE) % MINUTE == 0 && (a < b ==> a + MINUTE <= b)
  {
  }

  lemma NextMinute(low: Time, u: Time)
    requires low <= u < low + MINUTE && low / MINUTE != u / MINUTE
    ensures (low + MINUTE) / MINUTE == u / MINUTE && low < u
  {
  }

  lemma LastNotBackIsLossless(tolerance: int, wider: int, clock: Time -> Civil)
    requires tolerance <= wider && ShowsMinutes(clock)
    requires tolerance < 0 || LastOffset(tolerance) <= LastOffset(wider)
    ensures Lossless(tolerance, wider, clock)
  {
    forall fields: seq<string>, t: Time | Matches(fields, t, tolerance, clock) ensures Matches(fields, t, wider, clock) {
      var u :| Looked(t, tolerance, u) && Fires(fields, clock(u));
      LookedLast(t, tolerance, u);
      var v := SameMinute(t, wider, u);
      assert clock(u) == clock(v);
    }
  }

  /** "m h * * *". */
  function DailyLine(minute: nat, hour: nat): Line {
    Line([Item(Number(minute), None)], [Item(Number(hour), None)], [Item(Star, None)], [Item(Star, None)], [Item(Star, None)])
  }

  predicate InCalendar(c: Civil) { 1 <= c.day <= 31 && 1 <= c.month <= 12 && 0 <= c.weekday <= 6 }

  lemma DailyMeans(minute: nat, hour: nat, c: Civil)
    requires InCalendar(c)
    ensures Means(DailyLine(minute, hour), c) <==> c.minute == minute && c.hour == hour
  {
    var l := DailyLine(minute, hour);
    var m, h, any := l.minute[0], l.hour[0], l.day[0];
    assert m in l.minute && h in l.hour && any in l.day && any in l.month && any in l.weekday;
    assert Reaches(m, minute, 0, 0) && Reaches(h, hour, 0, 0);
    assert Reaches(any, c.day, 1, c.day - 1) && Reaches(any, c.month, 1, c.month - 1) && Reaches(any, c.weekday, 0, c.weekday);
  }

  /** What a clock that shows UTC says; its calendar is left open. */
  ghost predicate ShowsUtc(clock: Time -> Civil) {
    forall u: Time :: clock(u).minute == u / MINUTE % 60 && clock(u).hour == u / (60 * MINUTE) % 24 && InCalendar(clock(u))
  }

  /** Noon on the first day. */
  const NOON: Time := 720 * MINUTE

  lemma OnlyNoon(u: Time)
    requires NOON - DAY + MINUTE <= u < NOON
    ensures !(u / MINUTE % 60 == 0 && u / (60 * MINUTE) % 24 == 12)
  {
  }

  /** Firing at `at`, and not in the time before it. */
  ghost predicate FiresFirst(fields: seq<string>, at: Time, before: int, clock: Time -> Civil)
    requires |fields| >= 5
  {
    Fires(fields, clock(at)) && forall u :: at - before <= u < at ==> !Fires(fields, clock(u))
  }

  lemma OnlyBefore(at: Time, tolerance: int, wider: int, u: Time)
    requires 0 <= tolerance <= wider && LastOffset(tolerance) > LastOffset(wider)
    ensures Looked(at - LastOffset(tolerance), tolerance, at)
    ensures Looked(at - LastOffset(tolerance), wider, u) ==> at - (tolerance + wider) <= u < at
  {
    var t := at - LastOffset(tolerance);
    LookedLast(t, tolerance, at);
    LookedLast(t, wider, u);
  }

  /** When the last instant looked at moves back, such a line is lost. */
  lemma LastIsLost(fields: seq<string>, at: Time, tolerance: int, wider: int, clock: Time -> Civil)
    requires |fields| >= 5 && FiresFirst(fields, at, tolerance + wider, clock)
    requires 0 <= tolerance <= wider && LastOffset(tolerance) > LastOffset(wider)
    ensures Matches(fields, at - LastOffset(tolerance), tolerance, clock)
    ensures !Matches(fields, at - LastOffset(tolerance), wider, clock)
  {
    var t := at - LastOffset(tolerance);
    OnlyBefore(at, tolerance, wider, at);
    forall u | Looked(t, wider, u) ensures !Fires(fields, clock(u)) {
      OnlyBefore(at, tolerance, wider, u);
    }
  }

  lemma LineFiresFirst(l: Line, at: Time, before: int, clock: Time -> Civil)
    requires LineOk(l) && Means(l, clock(at)) && forall u :: at - before <= u < at ==> !Means(l, clock(u))
    ensures FiresFirst(Words(l), at, before, clock)
  {
    assert Words(l) + [] == Words(l);
    LineFires(l, [], clock(at));
    forall u | at - before <= u < at ensures !Fires(Words(l), clock(u)) {
      LineFires(l, [], clock(u));
    }
  }

  /** The clock shows that time of day at `at`, and not in the time before it. */
  ghost predicate ShowsFirst(minute: nat, hour: nat, at: Time, before: int, clock: Time -> Civil) {
    && (forall u :: at - before <= u <= at ==> InCalendar(clock(u)))
    && clock(at).minute == minute && clock(at).hour == hour
    && forall u :: at - before <= u < at ==> clock(u).minute != minute || clock(u).hour != hour
  }

  lemma DailyFires(minute: nat, hour: nat, at: Time, before: int, clock: Time -> Civil)
    requires minute < 60 && hour < 24 && before >= 0 && ShowsFirst(minute, hour, at, before, clock)
    ensures LineOk(DailyLine(minute, hour)) && FiresFirst(Words(DailyLine(minute, hour)), at, before, clock)
  {
    DailyMeans(minute, hour, clock(at));
    forall u | at - before <= u < at ensures !Means(DailyLine(minute, hour), clock(u)) {
      DailyMeans(minute, hour, clock(u));
    }
    LineFiresFirst(DailyLine(minute, hour), at, before, clock);
  }

  lemma NoonLine(clock: Time -> Civil)
    requires ShowsUtc(clock)
    ensures ShowsFirst(0, 12, NOON, DAY - MINUTE, clock)
  {
    forall u | NOON - (DAY - MINUTE) <= u < NOON ensures clock(u).minute != 0 || clock(u).hour != 12 {
      OnlyNoon(u);
    }
  }

  lemma DailyIsLost(minute: nat, hour: nat, at: Time, tolerance: int, wider: int, clock: Time -> Civil)
    requires minute < 60 && hour < 24 && ShowsFirst(minute, hour, at, tolerance + wider, clock)
    requires 0 <= tolerance <= wider && LastOffset(tolerance) > LastOffset(wider)
    ensures !Lossless(tolerance, wider, clock)
  {
    DailyFires(minute, hour, at, tolerance + wider, clock);
    LastIsLost(Words(DailyLine(minute, hour)), at, tolerance, wider, clock);
  }

  /** For a clock that shows UTC, widening the window loses no match if and only if the last instant
      looked at does not move back. */
  lemma WiderLosesNothingExactlyWhen(tolerance: int, wider: int, clock: Time -> Civil)
    requires ShowsUtc(clock) && ShowsMinutes(clock) && 0 <= tolerance <= wider && tolerance + wider < DAY - MINUTE
    ensures Lossless(tolerance, wider, clock) <==> LastOffset(tolerance) <= LastOffset(wider)
  {
    if LastOffset(tolerance) <= LastOffset(wider) {
      LastNotBackIsLossless(tolerance, wider, clock);
    } else {
      NoonLine(clock);
      DailyIsLost(0, 12, NOON, tolerance, wider, clock);
    }
  }

  /** A clock that shows minute 1 in the minute from 0 on, and minute 0 at all other times. */
  function OneMinute(u: Time): Civil { Civil(if u / MINUTE == 0 then 1 else 0, 0, 1, 1, 0) }

  lemma OneMinuteIsLost(tolerance: int, wider: int)
    requires 0 <= tolerance <= wider && LastOffset(tolerance) > LastOffset(wider)
    ensures ShowsMinutes(OneMinute) && !Lossless(tolerance, wider, OneMinute)
  {
    DailyIsLost(1, 0, 0, tolerance, wider, OneMinute);
  }

  /** Over all clocks that show the same throughout a minute, and tolerances of any size: no match is
      ever lost if and only if the first window is empty or its last instant does not move back. */
  lemma LosslessExactlyWhen(tolerance: int, wider: int)
    requires tolerance <= wider
    ensures (forall clock: Time -> Civil :: ShowsMinutes(clock) ==> Lossless(tolerance, wider, clock))
            <==> tolerance < 0 || LastOffset(tolerance) <= LastOffset(wider)
  {
    if tolerance < 0 || LastOffset(tolerance) <= LastOffset(wider) {
      forall clock: Time -> Civil | ShowsMinutes(clock) ensures Lossless(tolerance, wider, clock) {
        LastNotBackIsLossless(tolerance, wider, clock);
      }
    } else {
      OneMinuteIsLost(tolerance, wider);
    }
  }

  lemma NoonText()
    ensures LineOk(DailyLine(0, 12)) && Words(DailyLine(0, 12)) == ["0", "12", "*", "*", "*"]
  {
    var zero, twelve, any := [Item(Number(0), None)], [Item(Number(12), None)], [Item(Star, None)];
    assert PrintField(zero) == "0" && PrintField(twelve) == "12" && PrintField(any) == "*";
  }

  lemma HalfMinuteLoses(words: seq<string>, clock: Time -> Civil)
    requires |words| >= 5 && FiresFirst(words, NOON, DAY - MINUTE, clock)
    ensures Matches(words, NOON - 30 * SECOND, 30 * SECOND, clock)
    ensures !Matches(words, NOON - 30 * SECOND, 55 * SECOND, clock)
  {
    LastIsLost(words, NOON, 30 * SECOND, 55 * SECOND, clock);
  }

  /** So 30 seconds can be better than 55: at 11:59:30 the first looks at 12:00:00, the second at
      11:58:35 and 11:59:35 only, and the line "0 12 * * *" is lost. */
  lemma PartMinutesLose(words: seq<string>, clock: Time -> Civil)
    requires words == ["0", "12", "*", "*", "*"] && ShowsUtc(clock)
    ensures Matches(words, NOON - 30 * SECOND, 30 * SECOND, clock)
    ensures !Matches(words, NOON - 30 * SECOND, 55 * SECOND, clock)
  {
    NoonText();
    NoonLine(clock);
    DailyFires(0, 12, NOON, DAY - MINUTE, clock);
    HalfMinuteLoses(words, clock);
  }
}
