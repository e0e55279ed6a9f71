/** DetectPatterns over all series of a host, and PatternFor (internal/analyzer/recurrence.go). */
module PatternDetection {
  import opened Common
  import Totals
  import opened Sorting
  import opened Recurrence
  import opened Patterns

  type Key = (string, string)

  function KeyOf(e: SpikeEvent): Key { (e.resource, e.device) }

  /** The events of one (resource, device), in their order of arrival. */
  function Of(spikes: seq<SpikeEvent>, k: Key): seq<SpikeEvent> {
    if spikes == [] then []
    else
      var init, last := spikes[..|spikes| - 1], spikes[|spikes| - 1];
      if KeyOf(last) == k then Of(init, k) + [last] else Of(init, k)
  }

  lemma {:induction false} OfIsExact(spikes: seq<SpikeEvent>, k: Key)
    ensures forall e :: e in Of(spikes, k) <==> e in spikes && KeyOf(e) == k
    ensures multiset(Of(spikes, k)) <= multiset(spikes)
  {
    if spikes != [] {
      var init, last := spikes[..|spikes| - 1], spikes[|spikes| - 1];
      assert spikes == init + [last];
      OfIsExact(init, k);
    }
  }

  /** What DetectPatterns works out for one series: its events by start time, and their clusters. */
  datatype Series = Series(key: Key, evs: seq<SpikeEvent>, clusters: seq<Cluster>)

  const START: SpikeEvent -> int := (e: SpikeEvent) => e.startTs

  const BY_OCCURRENCES: Pattern -> int := (p: Pattern) => 0 - p.occurrences

  ghost predicate IsSeries(spikes: seq<SpikeEvent>, s: Series) {
    && multiset(s.evs) == multiset(Of(spikes, s.key)) && SortedBy(s.evs, START)
    && Clustering(s.evs, s.clusters, |s.evs|)
  }

  ghost predicate Covers(report: seq<Series>, k: Key) { exists i :: 0 <= i < |report| && report[i].key == k }

  /** Every series of the input, once, in whatever order the map was iterated. */
  ghost predicate IsReport(spikes: seq<SpikeEvent>, report: seq<Series>) {
    && (forall i :: 0 <= i < |report| ==> IsSeries(spikes, report[i]))
    && KeysApart(report)
    && forall e :: e in spikes ==> Covers(report, KeyOf(e))
  }

  function EventsOf(evs: seq<SpikeEvent>, cluster: Cluster): (r: seq<SpikeEvent>)
    requires forall j :: j in cluster ==> j < |evs|
    ensures |r| == |cluster| && forall i :: 0 <= i < |r| ==> cluster[i] in cluster && r[i] == evs[cluster[i]]
  {
    seq(|cluster|, i requires 0 <= i < |cluster| => assert cluster[i] in cluster; evs[cluster[i]])
  }

  /** What is reported for cluster `c`, if anything. */
  ghost function Reported(s: Series, observedDays: int, c: nat): Option<Pattern> {
    if c < |s.clusters| && WellFormed(s.evs, s.clusters) && Qualifies(EventsOf(s.evs, s.clusters[c]))
    then Some(PatternOf(s.key, EventsOf(s.evs, s.clusters[c]), observedDays)) else None
  }

  ghost function Reporter(s: Series, observedDays: int): nat -> Option<Pattern> { (c: nat) => Reported(s, observedDays, c) }

  ghost function PatternsOf(s: Series, observedDays: int): seq<Pattern> {
    Somes(Reporter(s, observedDays), |s.clusters|)
  }

  ghost function Lister(report: seq<Series>, observedDays: int): nat -> seq<Pattern> {
    (i: nat) => if i < |report| then PatternsOf(report[i], observedDays) else []
  }

  ghost function AllPatterns(report: seq<Series>, observedDays: int): seq<Pattern> {
    Flat(Lister(report, observedDays), |report|)
  }

  ghost function Somes<T>(f: nat -> Option<T>, n: nat): (r: seq<T>)
    ensures |r| <= n
  {
    if n == 0 then [] else Somes(f, n - 1) + if f(n - 1).Some? then [f(n - 1).value] else []
  }

  ghost function Flat<T>(f: nat -> seq<T>, n: nat): seq<T> {
    if n == 0 then [] else Flat(f, n - 1) + f(n - 1)
  }

  lemma {:induction false} InSomes<T>(f: nat -> Option<T>, n: nat, x: T)
    ensures x in Somes(f, n) <==> exists c: nat :: c < n && f(c) == Some(x)
  {
    if n > 0 { InSomes(f, n - 1, x); }
  }

  lemma {:induction false} InFlat<T>(f: nat -> seq<T>, n: nat, x: T)
    ensures x in Flat(f, n) <==> exists i: nat :: i < n && x in f(i)
  {
    if n > 0 { InFlat(f, n - 1, x); }
  }

  lemma {:induction false} SameFlat<T>(f: nat -> seq<T>, g: nat -> seq<T>, n: nat)
    requires forall i: nat :: i < n ==> f(i) == g(i)
    ensures Flat(f, n) == Flat(g, n)
  {
    if n > 0 { SameFlat(f, g, n - 1); }
  }

  lemma AllPatternsSnoc(report: seq<Series>, s: Series, observedDays: int)
    ensures AllPatterns(report + [s], observedDays) == AllPatterns(report, observedDays) + PatternsOf(s, observedDays)
  {
    var more := report + [s];
    SameFlat(Lister(report, observedDays), Lister(more, observedDays), |report|);
  }

  // ---- the loops --------------------------------------------------------------------------

  function Lookup(groups: map<Key, seq<SpikeEvent>>, k: Key): seq<SpikeEvent> {
    if k in groups then groups[k] else []
  }

  lemma OfOneMore(spikes: seq<SpikeEvent>, i: nat, k: Key)
    requires i < |spikes|
    ensures Of(spikes[..i + 1], k) == if KeyOf(spikes[i]) == k then Of(spikes[..i], k) + [spikes[i]] else Of(spikes[..i], k)
  {
    assert spikes[..i + 1][..i] == spikes[..i];
  }

  method GroupSpikes(spikes: seq<SpikeEvent>) returns (groups: map<Key, seq<SpikeEvent>>)
    ensures forall k :: k in groups <==> Of(spikes, k) != []
    ensures forall k :: k in groups ==> groups[k] == Of(spikes, k)
  {
    groups := map[];
    for i := 0 to |spikes|
      invariant forall k :: Lookup(groups, k) == Of(spikes[..i], k)
      invariant forall k :: k in groups ==> groups[k] != []
    {
      var k := KeyOf(spikes[i]);
      ghost var was := groups;
      groups := groups[k := Lookup(groups, k) + [spikes[i]]];
      forall q ensures Lookup(groups, q) == Of(spikes[..i + 1], q) {
        assert Lookup(was, q) == Of(spikes[..i], q);
        OfOneMore(spikes, i, q);
      }
    }
    assert spikes[..|spikes|] == spikes;
    forall k ensures k in groups <==> Of(spikes, k) != [] {
      assert Lookup(groups, k) == Of(spikes, k);
    }
  }

  /** One pass of the loop over the groups. */
  method SearchSeries(k: Key, events: seq<SpikeEvent>, observedDays: int, ghost spikes: seq<SpikeEvent>)
    returns (out: seq<Pattern>, ghost s: Series)
    requires events == Of(spikes, k)
    ensures IsSeries(spikes, s) && s.key == k && out == PatternsOf(s, observedDays)
  {
    var a := new SpikeEvent[|events|](i requires 0 <= i < |events| => events[i]);
    assert a[..] == events;
    SortSlice(a, START);
    var evs := a[..];
    var clusters := ClusterGroup(evs);
    s := Series(k, evs, clusters);
    out := [];
    ghost var f := Reporter(s, observedDays);
    for c := 0 to |clusters|
      invariant out == Somes(f, c)
    {
      var p := SummarizeCluster(k, EventsOf(evs, clusters[c]), observedDays);
      assert f(c) == p;
      if p.Some? {
        out := out + [p.value];
      }
    }
  }

  ghost predicate KeysApart(report: seq<Series>) {
    forall i, j :: 0 <= i < j < |report| ==> report[i].key != report[j].key
  }

  lemma CoversMore(report: seq<Series>, s: Series, k: Key)
    ensures Covers(report + [s], k) <==> Covers(report, k) || s.key == k
  {
    var more := report + [s];
    if i :| 0 <= i < |report| && report[i].key == k { assert more[i].key == k; }
    assert more[|report|].key == s.key;
  }

  /** The groups outside `rest` have been searched, each once. */
  ghost predicate Searched(spikes: seq<SpikeEvent>, keys: set<Key>, rest: set<Key>, report: seq<Series>) {
    && (forall i :: 0 <= i < |report| ==> IsSeries(spikes, report[i])) && KeysApart(report)
    && forall k :: Covers(report, k) <==> k in keys && k !in rest
  }

  lemma SearchedOneMore(spikes: seq<SpikeEvent>, keys: set<Key>, rest: set<Key>, report: seq<Series>, s: Series)
    requires Searched(spikes, keys, rest, report) && IsSeries(spikes, s) && s.key in rest && rest <= keys
    ensures Searched(spikes, keys, rest - {s.key}, report + [s])
  {
    forall q { CoversMore(report, s, q); }
    forall i | 0 <= i < |report| ensures report[i].key != s.key {
      assert Covers(report, report[i].key);
    }
  }

  /** The loop over the groups. */
  method SearchAll(spikes: seq<SpikeEvent>, groups: map<Key, seq<SpikeEvent>>, observedDays: int)
    returns (out: seq<Pattern>, ghost report: seq<Series>)
    requires forall k :: k in groups ==> groups[k] == Of(spikes, k)
    ensures Searched(spikes, groups.Keys, {}, report)
    ensures out == AllPatterns(report, observedDays)
  {
    var rest := groups.Keys;
    out, report := [], [];
    while rest != {}
      invariant rest <= groups.Keys
      invariant Searched(spikes, groups.Keys, rest, report)
      invariant out == AllPatterns(report, observedDays)
    {
      var k :| k in rest;
      ghost var s;
      var more;
      more, s := SearchSeries(k, groups[k], observedDays, spikes);
      AllPatternsSnoc(report, s, observedDays);
      SearchedOneMore(spikes, groups.Keys, rest, report, s);
      out, report, rest := out + more, report + [s], rest - {k};
    }
  }

  lemma SearchedAll(spikes: seq<SpikeEvent>, keys: set<Key>, report: seq<Series>)
    requires Searched(spikes, keys, {}, report)
    requires forall k :: k in keys <==> Of(spikes, k) != []
    ensures IsReport(spikes, report)
  {
    forall e | e in spikes ensures Covers(report, KeyOf(e)) {
      OfIsExact(spikes, KeyOf(e));
      assert e in Of(spikes, KeyOf(e));
    }
  }

  /** What DetectPatterns promises: the patterns of all series, most frequent first. */
  ghost predicate Finds(spikes: seq<SpikeEvent>, observedDays: int, out: seq<Pattern>, report: seq<Series>) {
    && IsReport(spikes, report)
    && multiset(out) == multiset(AllPatterns(report, observedDays))
    && SortedBy(out, BY_OCCURRENCES)
  }

  /** DetectPatterns. */
  method DetectPatterns(spikes: seq<SpikeEvent>, observedDays: int) returns (out: seq<Pattern>, ghost report: seq<Series>)
    ensures Finds(spikes, observedDays, out, report)
  {
    var groups := GroupSpikes(spikes);
    out, report := SearchAll(spikes, groups, observedDays);
    SearchedAll(spikes, groups.Keys, report);
    var a := new Pattern[|out|](i requires 0 <= i < |out| => out[i]);
    assert a[..] == out;
    SortSlice(a, BY_OCCURRENCES);
    out := a[..];
  }

  // ---- what a pattern stands for ----------------------------------------------------------

  /** Pattern `p` was made from cluster `c` of series `i`. */
  ghost predicate Shows(report: seq<Series>, observedDays: int, i: nat, c: nat, p: Pattern) {
    i < |report| && c < |report[i].clusters| && Reported(report[i], observedDays, c) == Some(p)
  }

  /** A pattern is reported exactly when some cluster of some series shows it. */
  lemma ReportedExactlyWhen(report: seq<Series>, observedDays: int, p: Pattern)
    ensures p in AllPatterns(report, observedDays) <==> exists i: nat, c: nat :: Shows(report, observedDays, i, c, p)
  {
    var f := Lister(report, observedDays);
    InFlat(f, |report|, p);
    if i: nat :| i < |report| && p in f(i) {
      ShownBySeries(report, observedDays, i, p);
    }
    if i: nat, c: nat :| Shows(report, observedDays, i, c, p) {
      ShownBySeries(report, observedDays, i, p);
      assert p in f(i);
    }
  }

  lemma ShownBySeries(report: seq<Series>, observedDays: int, i: nat, p: Pattern)
    requires i < |report|
    ensures p in Lister(report, observedDays)(i) <==> exists c: nat :: Shows(report, observedDays, i, c, p)
  {
    var f := Reporter(report[i], observedDays);
    InSomes(f, |report[i].clusters|, p);
    if c: nat :| c < |report[i].clusters| && f(c) == Some(p) {
      assert Shows(report, observedDays, i, c, p);
    }
    if c: nat :| Shows(report, observedDays, i, c, p) {
      assert f(c) == Some(p);
    }
  }

  lemma EventsAreSpikes(spikes: seq<SpikeEvent>, s: Series, events: seq<SpikeEvent>)
    requires IsSeries(spikes, s) && forall e :: e in events ==> e in s.evs
    ensures forall e :: e in events ==> e in spikes && KeyOf(e) == s.key
  {
    OfIsExact(spikes, s.key);
    forall e | e in events ensures e in spikes && KeyOf(e) == s.key {
      assert e in multiset(s.evs);
      assert e in multiset(Of(spikes, s.key));
    }
  }

  /** The events behind a pattern: spikes of its own series, close together on the clock, on at
      least three days; and unless they straddle midnight, the reported minute is among them. */
  lemma PatternMembers(spikes: seq<SpikeEvent>, report: seq<Series>, observedDays: int, i: nat, c: nat, p: Pattern)
    requires IsReport(spikes, report) && Shows(report, observedDays, i, c, p)
    ensures WellFormed(report[i].evs, report[i].clusters)
    ensures var events := EventsOf(report[i].evs, report[i].clusters[c]);
            && |events| == p.occurrences == |p.eventIds| >= p.distinctDays >= 3
            && (forall e :: e in events ==> e in spikes && KeyOf(e) == (p.resource, p.device))
            && (forall e, f :: e in events && f in events ==> MinuteDist(MinuteOfDay(e.startTs), MinuteOfDay(f.startTs)) <= 2 * TOLERANCE)
            && (OneSide(MinuteOfDay(events[0].startTs), events)
                ==> -TOLERANCE <= p.meanMinute - MinuteOfDay(events[0].startTs) <= TOLERANCE)
  {
    var s := report[i];
    var cluster := s.clusters[c];
    var events := EventsOf(s.evs, cluster);
    assert IsSeries(spikes, s);
    FewerDaysThanEvents(events);
    EventsAreSpikes(spikes, s, events);
    var base := MinuteOfDay(events[0].startTs);
    forall a, b | 0 <= a < |events| && 0 <= b < |events|
      ensures MinuteDist(MinuteOfDay(events[a].startTs), MinuteOfDay(events[b].startTs)) <= 2 * TOLERANCE
      ensures MinuteDist(base, MinuteOfDay(events[b].startTs)) <= TOLERANCE
    {
      MembersAreNear(s.evs, s.clusters, |s.evs|, c, cluster[a], cluster[b]);
    }
    MeanOfPattern(base, events);
  }

  lemma MeanOfPattern(base: int, events: seq<SpikeEvent>)
    requires 0 <= base < CIRCLE && NearBase(base, events) && events != []
    ensures OneSide(base, events) ==> -TOLERANCE <= SumMinutes(events) / |events| - base <= TOLERANCE
  {
    SumsDiffer(base, events);
    MeanIsNear(base, events);
  }

  lemma {:induction false} FewerDaysThanEvents(events: seq<SpikeEvent>)
    ensures |Days(events)| <= |events|
  {
    if events != [] {
      OneMore(events, |events| - 1);
      assert events[..|events|] == events;
      FewerDaysThanEvents(events[..|events| - 1]);
    }
  }

  // ---- at most 68 patterns per series -----------------------------------------------------

  function CountKey(ps: seq<Pattern>, k: Key): nat {
    if ps == [] then 0
    else CountKey(ps[..|ps| - 1], k) + if (ps[|ps| - 1].resource, ps[|ps| - 1].device) == k then 1 else 0
  }

  lemma {:induction false} CountConcat(a: seq<Pattern>, b: seq<Pattern>, k: Key)
    ensures CountKey(a + b, k) == CountKey(a, k) + CountKey(b, k)
  {
    if b == [] {
      assert a + b == a;
    } else {
      assert (a + b)[..|a + b| - 1] == a + b[..|b| - 1];
      CountConcat(a, b[..|b| - 1], k);
    }
  }

  lemma LastElement<T>(a: seq<T>)
    requires a != []
    ensures multiset(a) == multiset{a[|a| - 1]} + multiset(a[..|a| - 1])
  {
    assert a == a[..|a| - 1] + [a[|a| - 1]];
  }

  lemma TakeOut<T>(a: seq<T>, b: seq<T>) returns (i: nat)
    requires a != [] && multiset(a) == multiset(b)
    ensures i < |b| && b[i] == a[|a| - 1] && multiset(a[..|a| - 1]) == multiset(b[..i] + b[i + 1..])
  {
    var init, last := a[..|a| - 1], a[|a| - 1];
    assert last in multiset(b);
    i :| 0 <= i < |b| && b[i] == last;
    Totals.ElementsWithout(b, i);
    LastElement(a);
    Totals.Cancelled(last, multiset(init), multiset(b[..i] + b[i + 1..]));
  }

  lemma CountWithout(b: seq<Pattern>, i: nat, k: Key)
    requires i < |b|
    ensures CountKey(b, k) == CountKey(b[..i] + b[i + 1..], k) + CountKey([b[i]], k)
  {
    CountConcat(b[..i], b[i + 1..], k);
    CountConcat(b[..i], [b[i]], k);
    CountConcat(b[..i] + [b[i]], b[i + 1..], k);
    assert b == b[..i] + [b[i]] + b[i + 1..];
  }

  /** Sorting does not change how many patterns a series has. */
  lemma {:induction false} CountPermuted(a: seq<Pattern>, b: seq<Pattern>, k: Key)
    requires multiset(a) == multiset(b)
    ensures CountKey(a, k) == CountKey(b, k)
  {
    SameSize(a, b);
    if a != [] {
      var i := TakeOut(a, b);
      CountPermuted(a[..|a| - 1], b[..i] + b[i + 1..], k);
      CountWithout(b, i, k);
      CountWithout(a, |a| - 1, k);
      assert a[..|a| - 1] + a[|a|..] == a[..|a| - 1];
    }
  }

  lemma {:induction false} CountAll(ps: seq<Pattern>, k: Key)
    ensures CountKey(ps, k) <= |ps|
    ensures (forall p :: p in ps ==> (p.resource, p.device) != k) ==> CountKey(ps, k) == 0
  {
    if ps != [] { CountAll(ps[..|ps| - 1], k); }
  }

  lemma CountInSeries(spikes: seq<SpikeEvent>, report: seq<Series>, observedDays: int, i: nat, k: Key)
    requires IsReport(spikes, report) && i < |report|
    ensures CountKey(PatternsOf(report[i], observedDays), k) <= if report[i].key == k then 68 else 0
  {
    var s := report[i];
    var ps := PatternsOf(s, observedDays);
    assert IsSeries(spikes, s);
    AtMost68Clusters(s.evs, s.clusters, |s.evs|);
    forall p | p in ps ensures (p.resource, p.device) == s.key {
      ShownBySeries(report, observedDays, i, p);
    }
    CountAll(ps, k);
  }

  lemma {:induction false} CountFlat(f: nat -> seq<Pattern>, keys: seq<Key>, n: nat, k: Key)
    requires n <= |keys| && forall i, j :: 0 <= i < j < |keys| ==> keys[i] != keys[j]
    requires forall i: nat :: i < n ==> CountKey(f(i), k) <= if keys[i] == k then 68 else 0
    ensures CountKey(Flat(f, n), k) <= if k in keys[..n] then 68 else 0
  {
    if n > 0 {
      CountFlat(f, keys, n - 1, k);
      CountConcat(Flat(f, n - 1), f(n - 1), k);
      assert keys[..n] == keys[..n - 1] + [keys[n - 1]];
    }
  }

  /** However many spikes arrive, one (resource, device) has at most 68 patterns. */
  lemma AtMost68Patterns(spikes: seq<SpikeEvent>, report: seq<Series>, observedDays: int, out: seq<Pattern>, k: Key)
    requires IsReport(spikes, report) && multiset(out) == multiset(AllPatterns(report, observedDays))
    ensures CountKey(out, k) <= 68
  {
    var f := Lister(report, observedDays);
    var keys := seq(|report|, i requires 0 <= i < |report| => report[i].key);
    forall i: nat | i < |report| ensures CountKey(f(i), k) <= if keys[i] == k then 68 else 0 {
      CountInSeries(spikes, report, observedDays, i, k);
    }
    CountFlat(f, keys, |report|, k);
    CountPermuted(out, AllPatterns(report, observedDays), k);
  }

  // ---- PatternFor -------------------------------------------------------------------------

  /** PatternFor: the index of the first pattern that lists the event. */
  method PatternFor(patterns: seq<Pattern>, eventId: string) returns (r: Option<nat>)
    ensures r.Some? ==> r.value < |patterns| && eventId in patterns[r.value].eventIds
                        && forall i :: 0 <= i < r.value ==> eventId !in patterns[i].eventIds
    ensures r.None? ==> forall i :: 0 <= i < |patterns| ==> eventId !in patterns[i].eventIds
  {
    for i := 0 to |patterns|
      invariant forall k :: 0 <= k < i ==> eventId !in patterns[k].eventIds
    {
      for j := 0 to |patterns[i].eventIds|
        invariant eventId !in patterns[i].eventIds[..j]
      {
        if patterns[i].eventIds[j] == eventId {
          return Some(i);
        }
      }
      assert patterns[i].eventIds[..|patterns[i].eventIds|] == patterns[i].eventIds;
    }
    return None;
  }

  const EVENT_ID: SpikeEvent -> string := (e: SpikeEvent) => e.eventId

  lemma UniqueInSpikes(spikes: seq<SpikeEvent>, e: SpikeEvent)
    requires UniqueIds(spikes, EVENT_ID) && e in spikes && e.eventId != ""
    ensures multiset(spikes)[e] == 1
    ensures forall f :: f in spikes && f.eventId == e.eventId ==> f == e
  {
    var i :| 0 <= i < |spikes| && spikes[i] == e;
    var a, b := spikes[..i], spikes[i + 1..];
    assert spikes == a + [e] + b;
    assert e !in a && e !in b;
    assert multiset(spikes) == multiset(a) + multiset{e} + multiset(b);
  }

  lemma TwiceIn<T>(s: seq<T>, i: nat, j: nat)
    requires i < j < |s| && s[i] == s[j]
    ensures multiset(s)[s[i]] >= 2
  {
    var a, b, c := s[..i], s[i + 1..j], s[j + 1..];
    assert s == a + [s[i]] + b + [s[j]] + c;
    assert multiset(s) == multiset(a) + multiset{s[i]} + multiset(b) + multiset{s[j]} + multiset(c);
  }

  /** In one series an id belongs to one position only. */
  lemma OnePosition(spikes: seq<SpikeEvent>, s: Series, a: nat, b: nat)
    requires UniqueIds(spikes, EVENT_ID) && IsSeries(spikes, s) && a < |s.evs| && b < |s.evs|
    requires s.evs[a].eventId == s.evs[b].eventId != ""
    ensures a == b && s.evs[a] in spikes && KeyOf(s.evs[a]) == s.key
  {
    var e, f := s.evs[a], s.evs[b];
    OfIsExact(spikes, s.key);
    assert e in multiset(s.evs) && f in multiset(s.evs);
    assert e in multiset(Of(spikes, s.key)) && f in multiset(Of(spikes, s.key));
    UniqueInSpikes(spikes, e);
    if a < b { TwiceIn(s.evs, a, b); }
    if b < a { TwiceIn(s.evs, b, a); }
  }

  /** The event of series `i` that a pattern lists under an id. */
  lemma WhereListed(spikes: seq<SpikeEvent>, report: seq<Series>, observedDays: int, p: Pattern, id: string)
    returns (i: nat, c: nat, j: nat)
    requires IsReport(spikes, report) && p in AllPatterns(report, observedDays) && id in p.eventIds
    ensures Shows(report, observedDays, i, c, p)
    ensures j in report[i].clusters[c] && j < |report[i].evs| && report[i].evs[j].eventId == id
  {
    ReportedExactlyWhen(report, observedDays, p);
    i, c :| Shows(report, observedDays, i, c, p);
    var cluster := report[i].clusters[c];
    assert IsSeries(spikes, report[i]);
    var m :| 0 <= m < |p.eventIds| && p.eventIds[m] == id;
    assert EventsOf(report[i].evs, cluster)[m] == report[i].evs[cluster[m]];
    j := cluster[m];
  }

  /** If no two spikes share a non-empty id, which is what the analyzer's deduplication establishes,
      no two patterns list the same event: so what PatternFor finds depends neither on the order
      in which the map was iterated nor on how equal patterns were sorted. */
  lemma PatternForIsUnique(spikes: seq<SpikeEvent>, report: seq<Series>, observedDays: int, p: Pattern, q: Pattern, id: string)
    requires IsReport(spikes, report) && UniqueIds(spikes, EVENT_ID) && id != ""
    requires p in AllPatterns(report, observedDays) && q in AllPatterns(report, observedDays)
    requires id in p.eventIds && id in q.eventIds
    ensures p == q
  {
    var i, c, a := WhereListed(spikes, report, observedDays, p, id);
    var k, d, b := WhereListed(spikes, report, observedDays, q, id);
    OnePosition(spikes, report[i], a, a);
    OnePosition(spikes, report[k], b, b);
    UniqueInSpikes(spikes, report[i].evs[a]);
    SameSeries(report, i, k);
    OnePosition(spikes, report[i], a, b);
    assert IsSeries(spikes, report[i]);
    SameCluster(report[i].evs, report[i].clusters, c, d, a);
  }

  lemma SameSeries(report: seq<Series>, i: nat, k: nat)
    requires KeysApart(report) && i < |report| && k < |report| && report[i].key == report[k].key
    ensures i == k
  {
  }

  lemma SameCluster(evs: seq<SpikeEvent>, clusters: seq<Cluster>, c: nat, d: nat, j: nat)
    requires Clustering(evs, clusters, |evs|) && c < |clusters| && d < |clusters| && j in clusters[c] && j in clusters[d]
    ensures c == d
  {
    if c < d { ClustersAreDisjoint(evs, clusters, |evs|, c, d, j); }
    if d < c { ClustersAreDisjoint(evs, clusters, |evs|, d, c, j); }
  }
}
