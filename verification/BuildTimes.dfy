/** Attributing wall-clock time to overlapping build steps in one pass over start and stop events. */
module BuildTimes {
  import opened NinjaLog

  // ----- the definition: shares of single milliseconds

  predicate RunsAt(t: Target, u: int) { t.start <= u < t.end }

  /** How many of the tasks run during the millisecond [u, u + 1). */
  function Running(ts: seq<Target>, u: int): nat {
    if ts == [] then 0
    else Running(ts[..|ts| - 1], u) + if RunsAt(ts[|ts| - 1], u) then 1 else 0
  }

  /** The part of millisecond u that each task running in it is charged with. */
  function Share(ts: seq<Target>, u: int): real {
    if Running(ts, u) == 0 then 0.0 else 1.0 / Running(ts, u) as real
  }

  function SumShares(ts: seq<Target>, lo: int, hi: int): real
    decreases hi - lo
  {
    if hi <= lo then 0.0 else SumShares(ts, lo, hi - 1) + Share(ts, hi - 1)
  }

  /** The impact of t on the build: its shares of all the milliseconds in which it runs. */
  function Weighted(ts: seq<Target>, t: Target): real {
    SumShares(ts, t.start, t.end)
  }

  function TotalWeighted(ts: seq<Target>, part: seq<Target>): real {
    if part == [] then 0.0
    else TotalWeighted(ts, part[..|part| - 1]) + Weighted(ts, part[|part| - 1])
  }

  /** Milliseconds of [lo, hi) in which some task runs. */
  function Busy(ts: seq<Target>, lo: int, hi: int): nat
    decreases hi - lo
  {
    if hi <= lo then 0 else Busy(ts, lo, hi - 1) + if Idle(ts, hi - 1) then 0 else 1
  }

  predicate Idle(ts: seq<Target>, u: int) { Running(ts, u) == 0 }

  function TotalDuration(ts: seq<Target>): int {
    if ts == [] then 0 else TotalDuration(ts[..|ts| - 1]) + ts[|ts| - 1].Duration()
  }

  ghost predicate NoRepeats<T>(s: seq<T>) {
    s != [] ==> NoRepeats(s[..|s| - 1]) && s[|s| - 1] !in s[..|s| - 1]
  }

  lemma {:induction false} NoRepeatsInPrefix<T>(s: seq<T>, k: nat)
    requires NoRepeats(s) && k < |s|
    ensures s[k] !in s[..k]
  {
    if k < |s| - 1 {
      NoRepeatsInPrefix(s[..|s| - 1], k);
      assert s[..|s| - 1][..k] == s[..k];
    }
  }

  lemma {:induction false} NoRepeatsCount<T>(s: seq<T>)
    ensures NoRepeats(s) <==> forall x <- s :: multiset(s)[x] == 1
  {
    if s != [] {
      var init, last := s[..|s| - 1], s[|s| - 1];
      NoRepeatsCount(init);
      assert s == init + [last];
      assert forall x :: multiset(s)[x] == multiset(init)[x] + if x == last then 1 else 0;
      if forall x <- s :: multiset(s)[x] == 1 {
        assert last in s && last !in multiset(init);
      }
    }
  }

  ghost predicate Spans(ts: seq<Target>, lo: int, hi: int) {
    forall t <- ts :: lo <= t.start <= t.end <= hi
  }

  lemma NoRepeatsMeans<T>(s: seq<T>)
    ensures NoRepeats(s) <==> forall i, j :: 0 <= i < j < |s| ==> s[i] != s[j]
  {
    if NoRepeats(s) {
      forall i, j | 0 <= i < j < |s|
        ensures s[i] != s[j]
      {
        NoRepeatsInPrefix(s, j);
        assert s[i] == s[..j][i];
      }
    } else if forall i, j :: 0 <= i < j < |s| ==> s[i] != s[j] {
      PairwiseNoRepeats(s);
    }
  }

  /** The number running is the number of tasks, by position, whose interval holds the millisecond. */
  lemma {:induction false} RunningIsCount(ts: seq<Target>, u: int)
    ensures Running(ts, u) == |set k | 0 <= k < |ts| && ts[k].start <= u < ts[k].end|
  {
    if ts != [] {
      var n := |ts| - 1;
      var before := set k | 0 <= k < n && ts[..n][k].start <= u < ts[..n][k].end;
      var now := set k | 0 <= k < |ts| && ts[k].start <= u < ts[k].end;
      RunningIsCount(ts[..n], u);
      assert now == if ts[n].start <= u < ts[n].end then before + {n} else before;
    }
  }

  /** Each of the tasks running in a millisecond is charged with an equal part of it. (With SharesAdd this is all
      there is to a sum of shares.) */
  lemma ShareOfOne(ts: seq<Target>, u: int)
    ensures var n := |set k | 0 <= k < |ts| && ts[k].start <= u < ts[k].end|;
      SumShares(ts, u, u + 1) == if n == 0 then 0.0 else 1.0 / n as real
    ensures SumShares(ts, u, u) == 0.0
  {
    RunningIsCount(ts, u);
    assert SumShares(ts, u, u + 1) == SumShares(ts, u, u) + Share(ts, u);
  }

  /** The busy milliseconds are counted one by one: those that are not idle, as IdleMeans says. */
  lemma {:induction false} BusyIsCount(ts: seq<Target>, lo: int, hi: int)
    ensures Busy(ts, lo, hi) == |set u | lo <= u < hi && !Idle(ts, u)|
    decreases hi - lo
  {
    var now := set u | lo <= u < hi && !Idle(ts, u);
    if hi <= lo {
      assert now == {};
    } else {
      var before := set u | lo <= u < hi - 1 && !Idle(ts, u);
      BusyIsCount(ts, lo, hi - 1);
      assert now == if Idle(ts, hi - 1) then before else before + {hi - 1};
    }
  }

  /** Idle is a millisecond that no task's interval holds. */
  lemma {:induction false} IdleMeans(ts: seq<Target>, u: int)
    ensures Idle(ts, u) <==> !(exists t <- ts :: t.start <= u < t.end)
  {
    if ts != [] {
      var init, last := ts[..|ts| - 1], ts[|ts| - 1];
      IdleMeans(init, u);
      assert ts == init + [last];
    }
  }

  /** The CPU time is the sum of the intervals, task by task. */
  lemma {:induction false} TotalDurationAdds(a: seq<Target>, b: seq<Target>)
    ensures TotalDuration(a + b) == TotalDuration(a) + TotalDuration(b)
    ensures |a| == 1 ==> TotalDuration(a) == a[0].end - a[0].start
  {
    if |a| == 1 { assert TotalDuration(a[..0]) == 0; }
    if b == [] {
      assert a + b == a;
    } else {
      var init := b[..|b| - 1];
      TotalDurationAdds(a, init);
      assert (a + b)[..|a + b| - 1] == a + init;
    }
  }

  // ----- what the definition implies

  lemma {:induction false} SharesAdd(ts: seq<Target>, lo: int, mid: int, hi: int)
    requires lo <= mid <= hi
    ensures SumShares(ts, lo, hi) == SumShares(ts, lo, mid) + SumShares(ts, mid, hi)
    decreases hi - mid
  {
    if mid < hi { SharesAdd(ts, lo, mid, hi - 1); }
  }

  /** A weighted duration is never negative and never longer than the duration. */
  lemma {:induction false} WeightedWithinDuration(ts: seq<Target>, lo: int, hi: int)
    requires lo <= hi
    ensures 0.0 <= SumShares(ts, lo, hi) <= (hi - lo) as real
    decreases hi - lo
  {
    if lo < hi {
      WeightedWithinDuration(ts, lo, hi - 1);
      var n := Running(ts, hi - 1);
      if n > 0 { assert 0.0 <= 1.0 / n as real <= 1.0; }
    }
  }

  /** The shares of t among the milliseconds of [lo, hi). */
  function SharesOf(ts: seq<Target>, t: Target, lo: int, hi: int): real
    decreases hi - lo
  {
    if hi <= lo then 0.0
    else SharesOf(ts, t, lo, hi - 1) + if RunsAt(t, hi - 1) then Share(ts, hi - 1) else 0.0
  }

  lemma {:induction false} SharesOfTask(ts: seq<Target>, t: Target, lo: int, hi: int)
    requires lo <= t.start
    ensures SharesOf(ts, t, lo, hi) == SumShares(ts, t.start, if hi <= t.end then hi else t.end)
    decreases hi - lo
  {
    if lo < hi { SharesOfTask(ts, t, lo, hi - 1); }
  }

  function SharesOfAll(ts: seq<Target>, part: seq<Target>, lo: int, hi: int): real {
    if part == [] then 0.0
    else SharesOfAll(ts, part[..|part| - 1], lo, hi) + SharesOf(ts, part[|part| - 1], lo, hi)
  }

  lemma {:induction false} OneMoreMillisecond(ts: seq<Target>, part: seq<Target>, lo: int, hi: int)
    requires lo < hi
    ensures SharesOfAll(ts, part, lo, hi) ==
      SharesOfAll(ts, part, lo, hi - 1) + Running(part, hi - 1) as real * Share(ts, hi - 1)
  {
    if part != [] { OneMoreMillisecond(ts, part[..|part| - 1], lo, hi); }
  }

  /** Exchanging the two sums: the shares handed out are the milliseconds in which something runs. */
  lemma {:induction false} SharesHandedOut(ts: seq<Target>, lo: int, hi: int)
    ensures SharesOfAll(ts, ts, lo, hi) == Busy(ts, lo, hi) as real
    decreases hi - lo
  {
    if hi <= lo {
      NothingHandedOut(ts, ts, lo, hi);
    } else {
      SharesHandedOut(ts, lo, hi - 1);
      OneMoreMillisecond(ts, ts, lo, hi);
      var n := Running(ts, hi - 1) as real;
      if n > 0.0 { assert n * (1.0 / n) == 1.0; }
    }
  }

  lemma NothingHandedOut(ts: seq<Target>, part: seq<Target>, lo: int, hi: int)
    requires hi <= lo
    ensures SharesOfAll(ts, part, lo, hi) == 0.0
  {
    if part != [] { NothingHandedOut(ts, part[..|part| - 1], lo, hi); }
  }

  lemma {:induction false} TotalIsHandedOut(ts: seq<Target>, part: seq<Target>, lo: int, hi: int)
    requires Spans(part, lo, hi)
    ensures TotalWeighted(ts, part) == SharesOfAll(ts, part, lo, hi)
  {
    if part != [] {
      TotalIsHandedOut(ts, part[..|part| - 1], lo, hi);
      SharesOfTask(ts, part[|part| - 1], lo, hi);
    }
  }

  /** Conservation: the weighted durations of all tasks add up to the busy milliseconds. */
  lemma Conservation(ts: seq<Target>, lo: int, hi: int)
    requires Spans(ts, lo, hi)
    ensures TotalWeighted(ts, ts) == Busy(ts, lo, hi) as real
  {
    TotalIsHandedOut(ts, ts, lo, hi);
    SharesHandedOut(ts, lo, hi);
  }

  /** Hence the total is at most the length of the build, and equal exactly without an idle gap. */
  lemma {:induction false} BusyWithinLength(ts: seq<Target>, lo: int, hi: int)
    requires lo <= hi
    ensures Busy(ts, lo, hi) <= hi - lo
    ensures Busy(ts, lo, hi) == hi - lo <==> forall u :: lo <= u < hi ==> !Idle(ts, u)
    decreases hi - lo
  {
    if lo < hi {
      BusyWithinLength(ts, lo, hi - 1);
    }
  }

  /** The build runs at least one task's time at a time: the CPU time is never less than the busy time. */
  lemma BusyWithinCpuTime(ts: seq<Target>, lo: int, hi: int)
    requires Spans(ts, lo, hi)
    ensures Busy(ts, lo, hi) <= TotalDuration(ts)
  {
    Conservation(ts, lo, hi);
    WeightedWithinTotal(ts, ts);
  }

  lemma {:induction false} WeightedWithinTotal(ts: seq<Target>, part: seq<Target>)
    requires forall t <- part :: t.start <= t.end
    ensures TotalWeighted(ts, part) <= TotalDuration(part) as real
  {
    if part != [] {
      var t := part[|part| - 1];
      assert t in part;
      WeightedWithinTotal(ts, part[..|part| - 1]);
      WeightedWithinDuration(ts, t.start, t.end);
    }
  }

  function MinStart(ts: seq<Target>): int
    requires ts != []
  {
    var t := ts[|ts| - 1];
    if |ts| == 1 then t.start else
    var m := MinStart(ts[..|ts| - 1]);
    if t.start < m then t.start else m
  }

  /** The latest end, or 0. */
  function MaxEnd(ts: seq<Target>): int {
    if ts == [] then 0 else
    var t, m := ts[|ts| - 1], MaxEnd(ts[..|ts| - 1]);
    if t.end > m then t.end else m
  }

  lemma {:induction false} ExtremesBound(ts: seq<Target>)
    requires ts != []
    ensures forall t <- ts :: MinStart(ts) <= t.start && t.end <= MaxEnd(ts)
    ensures exists t <- ts :: t.start == MinStart(ts)
    ensures (exists t <- ts :: t.end == MaxEnd(ts)) || (MaxEnd(ts) == 0 && forall t <- ts :: t.end < 0)
  {
    var init, last := ts[..|ts| - 1], ts[|ts| - 1];
    assert ts == init + [last];
    assert last in ts;
    if init != [] { ExtremesBound(init); }
  }

  /** The first time as the source keeps it: below 0 stands for "none yet". */
  function Earliest(ts: seq<Target>): int {
    if ts == [] then -1 else
    var t, e := ts[|ts| - 1], Earliest(ts[..|ts| - 1]);
    if e < 0 || t.start < e then t.start else e
  }

  /** It is the least start unless a start is below 0, and then only if the last task has the least start. */
  lemma {:induction false} EarliestIsMinStart(ts: seq<Target>)
    requires ts != []
    ensures Earliest(ts) == MinStart(ts) <==> MinStart(ts) >= 0 || ts[|ts| - 1].start == MinStart(ts)
    ensures Earliest(ts) < 0 ==> ts[|ts| - 1].start == Earliest(ts)
    ensures Earliest(ts) >= MinStart(ts)
  {
    if |ts| > 1 {
      EarliestIsMinStart(ts[..|ts| - 1]);
    }
  }

  /** With starts below 0 it forgets: it is the least start of the tasks after the last one that starts below 0, or
      that task's start when none comes after it. */
  lemma {:induction false} EarliestAfter(a: seq<Target>, b: seq<Target>)
    requires a == [] || a[|a| - 1].start < 0
    requires forall t <- b :: t.start >= 0
    ensures b != [] ==> Earliest(a + b) == MinStart(b)
    ensures b == [] && a != [] ==> Earliest(a + b) == a[|a| - 1].start
  {
    if b == [] {
      assert a + b == a;
      if |a| > 0 { EarliestFromNegative(a); }
    } else {
      var init, last := b[..|b| - 1], b[|b| - 1];
      assert b == init + [last] && last in b;
      assert (a + b)[..|a + b| - 1] == a + init;
      EarliestAfter(a, init);
      if init != [] { ExtremesBound(init); }
      if init == [] && a == [] { assert Earliest(a + init) == -1; }
    }
  }

  lemma EarliestFromNegative(a: seq<Target>)
    requires a != [] && a[|a| - 1].start < 0
    ensures Earliest(a) == a[|a| - 1].start
  {
  }

  // ----- events

  datatype Action = Start | Stop

  datatype Event = Event(time: int, action: Action, target: Target)

  function StartOf(t: Target): Event { Event(t.start, Start, t) }
  function StopOf(t: Target): Event { Event(t.end, Stop, t) }

  /** The order of the sort key (time, action): "start" comes before "stop". */
  predicate NotAfter(a: Event, b: Event) {
    a.time < b.time || (a.time == b.time && (a.action.Start? || b.action.Stop?))
  }

  ghost predicate Sorted(es: seq<Event>) {
    forall i, j :: 0 <= i < j < |es| ==> NotAfter(es[i], es[j])
  }

  function Insert(es: seq<Event>, e: Event): seq<Event> {
    if es != [] && !NotAfter(es[|es| - 1], e) then Insert(es[..|es| - 1], e) + [es[|es| - 1]] else es + [e]
  }

  lemma NotAfterIsTotal(a: Event, b: Event, c: Event)
    ensures NotAfter(a, b) || NotAfter(b, a)
    ensures NotAfter(a, b) && NotAfter(b, c) ==> NotAfter(a, c)
  {
  }

  lemma SortedSnoc(es: seq<Event>, e: Event)
    requires Sorted(es) && forall x :: x in es ==> NotAfter(x, e)
    ensures Sorted(es + [e])
  {
    hide NotAfter;
  }

  lemma {:induction false} InsertSorts(es: seq<Event>, e: Event)
    requires Sorted(es)
    ensures Sorted(Insert(es, e))
    ensures multiset(Insert(es, e)) == multiset(es) + multiset{e}
  {
    hide NotAfter, Sorted;
    if es == [] {
      SortedSnoc(es, e);
      return;
    }
    var init, last := es[..|es| - 1], es[|es| - 1];
    assert es == init + [last];
    LastIsLatest(es);
    if NotAfter(last, e) {
      forall x | x in es
        ensures NotAfter(x, e)
      {
        NotAfterIsTotal(x, last, e);
      }
      SortedSnoc(es, e);
    } else {
      InsertSorts(init, e);
      forall x | x in Insert(init, e)
        ensures NotAfter(x, last)
      {
        assert x in multiset(Insert(init, e));
        assert x == e || x in init;
        assert x == e || x in es;
        NotAfterIsTotal(e, last, e);
      }
      SortedSnoc(Insert(init, e), last);
    }
  }

  lemma LastIsLatest(es: seq<Event>)
    requires Sorted(es) && es != []
    ensures Sorted(es[..|es| - 1]) && forall x :: x in es ==> NotAfter(x, es[|es| - 1])
  {
    NotAfterIsTotal(es[|es| - 1], es[|es| - 1], es[|es| - 1]);
  }

  /** The library sort: stable and ascending. */
  function SortByKey(es: seq<Event>): seq<Event> {
    if es == [] then [] else Insert(SortByKey(es[..|es| - 1]), es[|es| - 1])
  }

  lemma {:induction false} SortByKeySorts(es: seq<Event>)
    ensures Sorted(SortByKey(es)) && multiset(SortByKey(es)) == multiset(es)
    ensures var r := SortByKey(es); forall i, j :: 0 <= i < j < |r| ==>
      && r[i].time <= r[j].time
      && (r[i].time == r[j].time && r[i].action.Stop? ==> r[j].action.Stop?)
  {
    if es != [] {
      var init, last := es[..|es| - 1], es[|es| - 1];
      SortByKeySorts(init);
      InsertSorts(SortByKey(init), last);
      assert es == init + [last];
    }
  }

  /** The start and the stop of every task, and nothing else. */
  ghost predicate EventsCover(ts: seq<Target>, es: seq<Event>) {
    && (forall t <- ts :: StartOf(t) in es && StopOf(t) in es)
    && (forall e <- es :: e.target in ts && (e == StartOf(e.target) || e == StopOf(e.target)))
  }

  /** The same, once each. */
  ghost predicate EventsOf(ts: seq<Target>, es: seq<Event>) { EventsCover(ts, es) && NoRepeats(es) }

  lemma EventsCoverPermuted(ts: seq<Target>, es: seq<Event>, r: seq<Event>)
    requires EventsCover(ts, es) && multiset(r) == multiset(es)
    ensures EventsCover(ts, r)
  {
    forall e
      ensures e in r <==> e in es
    {
      assert e in r <==> e in multiset(r);
    }
  }

  lemma EventsOfPermuted(ts: seq<Target>, es: seq<Event>, r: seq<Event>)
    requires EventsOf(ts, es) && multiset(r) == multiset(es)
    ensures EventsOf(ts, r)
  {
    NoRepeatsCount(es);
    NoRepeatsCount(r);
    EventsCoverPermuted(ts, es, r);
    assert forall e <- r :: e in multiset(r);
  }

  // ----- the sweep

  datatype Outcome =
    | Failed
    | Summary(earliest: int, latest: int, weightedTotal: real, totalCpuTime: int, warned: bool)

  const WARNING_LIMIT: real := 500000.0 // 500 of the seconds the times are kept in

  /** The events at the positions before k. */
  ghost function Seen(sorted: seq<Event>, k: nat): set<Event>
    requires k <= |sorted|
  {
    if k == 0 then {} else Seen(sorted, k - 1) + {sorted[k - 1]}
  }

  lemma {:induction false} SeenAt(sorted: seq<Event>, k: nat, i: nat)
    requires i < k <= |sorted|
    ensures sorted[i] in Seen(sorted, k)
  {
    if i < k - 1 { SeenAt(sorted, k - 1, i); }
  }

  lemma {:induction false} PositionOf(sorted: seq<Event>, k: nat, e: Event) returns (i: nat)
    requires k <= |sorted| && e in Seen(sorted, k)
    ensures i < k && sorted[i] == e
  {
    if sorted[k - 1] == e {
      i := k - 1;
    } else {
      i := PositionOf(sorted, k - 1, e);
    }
  }

  lemma NotSeenBefore(sorted: seq<Event>, k: nat)
    requires NoRepeats(sorted) && k < |sorted|
    ensures sorted[k] !in Seen(sorted, k)
  {
    NoRepeatsInPrefix(sorted, k);
    if sorted[k] in Seen(sorted, k) {
      var i := PositionOf(sorted, k, sorted[k]);
    }
  }

  ghost predicate Live(ts: seq<Target>, done: set<Event>, t: Target) {
    t in ts && StartOf(t) in done && StopOf(t) !in done
  }

  ghost function LiveTasks(ts: seq<Target>, done: set<Event>): set<Target> {
    set t | t in ts && Live(ts, done, t)
  }

  function TotalStopped(ts: seq<Target>, part: seq<Target>, done: set<Event>): real {
    if part == [] then 0.0
    else
      var t := part[|part| - 1];
      TotalStopped(ts, part[..|part| - 1], done) + if StopOf(t) in done then Weighted(ts, t) else 0.0
  }

  method SummarizeEntries(entries: seq<Target>) returns (r: Outcome)
    modifies (set t | t in entries)`weightedDuration
    ensures r.Summary? <==> entries != [] && NoRepeats(entries) && forall t <- entries :: t.start <= t.end
    ensures r.Summary? ==>
      && (forall t <- entries :: t.weightedDuration == SumShares(entries, t.start, t.end))
      && (forall t <- entries :: 0.0 <= t.weightedDuration <= (t.end - t.start) as real)
      && r.earliest == Earliest(entries) && r.latest == MaxEnd(entries)
      && (MinStart(entries) >= 0 ==> r.earliest == MinStart(entries))
      && r.totalCpuTime == TotalDuration(entries)
      && var busy := Busy(entries, MinStart(entries), MaxEnd(entries));
        && r.weightedTotal == busy as real
        && (r.warned <==> r.latest - r.earliest - busy > 500000 || busy - (r.latest - r.earliest) > 500000)
        && (MinStart(entries) >= 0 ==> busy <= r.latest - r.earliest)
  {
    var events, earliest, latest, totalCpuTime := CollectEvents(entries);
    EventListCovers(entries);
    SortByKeySorts(events);
    var sorted := SortByKey(events);
    EventsCoverPermuted(entries, events, sorted);
    if sorted == [] {
      assert forall t <- entries :: StartOf(t) in sorted;
      return Failed; // there is no first event
    }
    var ok, weightedTotal, running := Sweep(entries, sorted);
    if !ok {
      return Failed;
    }
    assert sorted[0].target in entries;
    assert |running| == 0; // as the source asserts
    EarliestIsMinStart(entries);
    ExtremesBound(entries);
    Conservation(entries, MinStart(entries), latest);
    WeightedBounds(entries);
    BusyWithinLength(entries, MinStart(entries), latest);
    var gap := (latest - earliest) as real - weightedTotal;
    r := Summary(earliest, latest, weightedTotal, totalCpuTime, (if gap < 0.0 then -gap else gap) > WARNING_LIMIT);
  }

  lemma WeightedBounds(ts: seq<Target>)
    requires forall t <- ts :: t.start <= t.end
    ensures forall t <- ts :: Weighted(ts, t) == SumShares(ts, t.start, t.end)
    ensures forall t <- ts :: 0.0 <= Weighted(ts, t) <= (t.end - t.start) as real
  {
    forall t | t in ts
      ensures Weighted(ts, t) == SumShares(ts, t.start, t.end) && 0.0 <= Weighted(ts, t) <= (t.end - t.start) as real
    {
      WeightedWithinDuration(ts, t.start, t.end);
    }
  }

  method CollectEvents(entries: seq<Target>)
    returns (events: seq<Event>, earliest: int, latest: int, totalCpuTime: int)
    ensures events == EventList(entries)
    ensures totalCpuTime == TotalDuration(entries)
    ensures earliest == Earliest(entries) && latest == MaxEnd(entries)
  {
    events, earliest, latest, totalCpuTime := [], -1, 0, 0;
    for i := 0 to |entries|
      invariant events == EventList(entries[..i])
      invariant totalCpuTime == TotalDuration(entries[..i])
      invariant earliest == Earliest(entries[..i])
      invariant latest == MaxEnd(entries[..i])
    {
      var target := entries[i];
      assert entries[..i + 1][..i] == entries[..i];
      if earliest < 0 || target.start < earliest { earliest := target.start; }
      if target.end > latest { latest := target.end; }
      totalCpuTime := totalCpuTime + target.Duration();
      events := events + [StartOf(target), StopOf(target)];
    }
    assert entries[..|entries|] == entries;
  }

  /** The events before sorting. */
  function EventList(ts: seq<Target>): seq<Event> {
    if ts == [] then [] else EventList(ts[..|ts| - 1]) + [StartOf(ts[|ts| - 1]), StopOf(ts[|ts| - 1])]
  }

  lemma NoRepeatsSnoc<T>(s: seq<T>, x: T)
    requires NoRepeats(s) && x !in s
    ensures NoRepeats(s + [x])
  {
    assert (s + [x])[..|s|] == s;
  }

  lemma {:induction false} EventListCovers(ts: seq<Target>)
    ensures EventsCover(ts, EventList(ts))
  {
    if ts != [] {
      var init, t := ts[..|ts| - 1], ts[|ts| - 1];
      EventListCovers(init);
      assert ts == init + [t];
    }
  }

  lemma {:induction false} EventListComplete(ts: seq<Target>)
    requires NoRepeats(ts)
    ensures EventsOf(ts, EventList(ts))
  {
    if ts != [] {
      var init, t := ts[..|ts| - 1], ts[|ts| - 1];
      EventListComplete(init);
      OneMoreTask(init, EventList(init), t);
      assert ts == init + [t];
    }
  }

  lemma OneMoreTask(ts: seq<Target>, es: seq<Event>, t: Target)
    requires EventsOf(ts, es) && t !in ts
    ensures EventsOf(ts + [t], es + [StartOf(t), StopOf(t)])
  {
    hide NoRepeats;
    var started := es + [StartOf(t)];
    NoRepeatsSnoc(es, StartOf(t));
    NoRepeatsSnoc(started, StopOf(t));
    assert es + [StartOf(t), StopOf(t)] == started + [StopOf(t)];
  }

  /** A task listed twice stops twice. */
  lemma {:induction false} StopsOf(ts: seq<Target>, t: Target)
    ensures multiset(EventList(ts))[StopOf(t)] == multiset(ts)[t]
  {
    if ts != [] {
      var init, last := ts[..|ts| - 1], ts[|ts| - 1];
      StopsOf(init, t);
      assert ts == init + [last];
      CountTwoMore(EventList(init), StartOf(last), StopOf(last), StopOf(t));
    }
  }

  lemma CountTwoMore(es: seq<Event>, a: Event, b: Event, e: Event)
    requires a != e
    ensures multiset(es + [a, b])[e] == multiset(es)[e] + if b == e then 1 else 0
  {
    assert multiset(es + [a, b]) == multiset(es) + multiset{a, b};
  }

  // ----- which tasks are in the dictionary, for any list of tasks

  /** The running tasks, when every stop so far found its task running. */
  ghost predicate Tracked(ts: seq<Target>, sorted: seq<Event>, k: nat, running: set<Target>)
    requires k <= |sorted|
  {
    && running == LiveTasks(ts, Seen(sorted, k))
    && (forall t <- ts :: StopOf(t) in Seen(sorted, k) ==> t.start <= t.end && StartOf(t) in Seen(sorted, k))
    && StopsOnce(sorted, k)
  }

  ghost predicate StopsOnce(sorted: seq<Event>, k: nat)
    requires k <= |sorted|
  {
    k > 0 ==> StopsOnce(sorted, k - 1) && (sorted[k - 1].action.Stop? ==> sorted[k - 1] !in Seen(sorted, k - 1))
  }

  lemma TrackedStep(ts: seq<Target>, sorted: seq<Event>, k: nat, running: set<Target>)
    requires EventsCover(ts, sorted) && Sorted(sorted) && k < |sorted| && Tracked(ts, sorted, k, running)
    requires sorted[k].action.Start? || sorted[k].target in running
    ensures Tracked(ts, sorted, k + 1,
      if sorted[k].action.Start? then running + {sorted[k].target} else running - {sorted[k].target})
  {
    var t := sorted[k].target;
    assert sorted[k] in sorted;
    if sorted[k].action.Start? {
      SeenIsNotAfter(sorted, k, StopOf(t));
    } else {
      SeenIsNotAfter(sorted, k, StartOf(t));
    }
  }

  lemma SeenIsNotAfter(sorted: seq<Event>, k: nat, e: Event)
    requires Sorted(sorted) && k < |sorted|
    ensures e in Seen(sorted, k) ==> NotAfter(e, sorted[k])
  {
    if e in Seen(sorted, k) {
      var i := PositionOf(sorted, k, e);
      assert NotAfter(sorted[i], sorted[k]);
    }
  }

  lemma {:induction false} StopsOnceCount(sorted: seq<Event>, k: nat, e: Event)
    requires k <= |sorted| && StopsOnce(sorted, k) && e.action.Stop?
    ensures multiset(sorted[..k])[e] == if e in Seen(sorted, k) then 1 else 0
  {
    if k > 0 {
      StopsOnceCount(sorted, k - 1, e);
      assert sorted[..k] == sorted[..k - 1] + [sorted[k - 1]];
    }
  }

  /** When all events are through, nothing runs, and no task was listed twice or ends before it starts. */
  lemma TrackedToTheEnd(ts: seq<Target>, sorted: seq<Event>, running: set<Target>)
    requires EventsCover(ts, sorted) && multiset(sorted) == multiset(EventList(ts))
    requires Tracked(ts, sorted, |sorted|, running)
    ensures NoRepeats(ts) && forall t <- ts :: t.start <= t.end
  {
    assert sorted[..|sorted|] == sorted;
    forall t | t in ts
      ensures multiset(ts)[t] == 1 && t.start <= t.end
    {
      var i :| 0 <= i < |sorted| && sorted[i] == StopOf(t);
      SeenAt(sorted, |sorted|, i);
      StopsOnceCount(sorted, |sorted|, StopOf(t));
      StopsOf(ts, t);
    }
    NoRepeatsCount(ts);
  }

  // ----- the pass

  /** What is known besides the running tasks when no task is listed twice. */
  ghost predicate Books(ts: seq<Target>, sorted: seq<Event>, k: nat, running: map<Target, real>, lastTime: int,
                        lastWeighted: real, total: real)
    requires k <= |sorted| && sorted != []
    reads ts
  {
    var first, done := sorted[0].time, Seen(sorted, k);
    && lastWeighted == SumShares(ts, first, lastTime)
    && Accounts(ts, done, first, running, total) && Charged(ts, done)
  }

  /** The state of the loop before event k. */
  ghost predicate Swept(ts: seq<Target>, sorted: seq<Event>, k: nat, running: map<Target, real>, lastTime: int,
                        lastWeighted: real, total: real)
    requires k <= |sorted| && sorted != []
    reads ts
  {
    && lastTime == (if k == 0 then sorted[0].time else sorted[k - 1].time)
    && EventsCover(ts, sorted) && Sorted(sorted) && Tracked(ts, sorted, k, running.Keys)
    && (NoRepeats(ts) ==> EventsOf(ts, sorted) && Books(ts, sorted, k, running, lastTime, lastWeighted, total))
  }

  /** The one pass: every task's weighted duration is its difference of the accumulated time. */
  method Sweep(entries: seq<Target>, sorted: seq<Event>)
    returns (ok: bool, weightedTotal: real, running: map<Target, real>)
    requires Sorted(sorted) && multiset(sorted) == multiset(EventList(entries)) && sorted != []
    modifies (set t | t in entries)`weightedDuration
    ensures ok <==> NoRepeats(entries) && forall t <- entries :: t.start <= t.end
    ensures ok ==> forall t <- entries :: t.weightedDuration == Weighted(entries, t)
    ensures ok ==> weightedTotal == TotalWeighted(entries, entries) && running == map[]
  {
    running := map[];
    var lastTime := sorted[0].time;
    var lastWeighted := 0.0;
    weightedTotal := 0.0;
    SweepBegins(entries, sorted);
    hide Swept, NoRepeats, Sorted, EventsCover, EventList, Weighted, TotalWeighted;
    for k := 0 to |sorted|
      invariant Swept(entries, sorted, k, running, lastTime, lastWeighted, weightedTotal)
    {
      ok, running, lastWeighted, weightedTotal :=
        Step(sorted, k, running, lastTime, lastWeighted, weightedTotal, entries);
      if !ok {
        return;
      }
      lastTime := sorted[k].time;
    }
    SweepEnds(entries, sorted, running, lastTime, lastWeighted, weightedTotal);
    ok := true;
  }

  lemma SweepBegins(ts: seq<Target>, sorted: seq<Event>)
    requires Sorted(sorted) && multiset(sorted) == multiset(EventList(ts)) && sorted != []
    ensures forall k :: 0 <= k < |sorted| ==> sorted[k].target in ts
    ensures Swept(ts, sorted, 0, map[], sorted[0].time, 0.0, 0.0)
  {
    EventListCovers(ts);
    EventsCoverPermuted(ts, EventList(ts), sorted);
    if NoRepeats(ts) {
      EventListComplete(ts);
      EventsOfPermuted(ts, EventList(ts), sorted);
      NothingStopped(ts, ts);
    }
  }

  lemma SweepEnds(ts: seq<Target>, sorted: seq<Event>, running: map<Target, real>, lastTime: int, lastWeighted: real,
                  total: real)
    requires multiset(sorted) == multiset(EventList(ts)) && sorted != []
    requires Swept(ts, sorted, |sorted|, running, lastTime, lastWeighted, total)
    ensures NoRepeats(ts) && running == map[] && total == TotalWeighted(ts, ts)
    ensures forall t <- ts :: t.start <= t.end && t.weightedDuration == Weighted(ts, t)
  {
    TrackedToTheEnd(ts, sorted, running.Keys);
    BooksClosed(ts, sorted, sorted[0].time, running, total);
  }

  /** The body of the loop. It fails when a stop finds its task not running. */
  method Step(sorted: seq<Event>, k: nat, running: map<Target, real>, lastTime: int, lastWeighted: real, total: real,
              ghost ts: seq<Target>)
    returns (ok: bool, running': map<Target, real>, lastWeighted': real, total': real)
    requires k < |sorted| && Swept(ts, sorted, k, running, lastTime, lastWeighted, total)
    modifies sorted[k].target`weightedDuration
    ensures ok ==> Swept(ts, sorted, k + 1, running', sorted[k].time, lastWeighted', total')
    ensures !ok ==> !NoRepeats(ts) || exists t <- ts :: t.end < t.start
  {
    hide Accounts, SumShares, Weighted, EventsOf, EventsCover, Sorted, Tracked, Seen, NoRepeats;
    ghost var e, first, done := sorted[k], sorted[0].time, Seen(sorted, k);
    TrackedKeys(ts, sorted, k, running.Keys);
    if NoRepeats(ts) {
      Advance(ts, sorted, k, done, running.Keys, lastTime, lastWeighted);
    }
    ok, running', lastWeighted', total' := ProcessEvent(sorted[k], running, lastTime, lastWeighted, total);
    if ok {
      TrackedStep(ts, sorted, k, running.Keys);
      assert running'.Keys == if e.action.Start? then running.Keys + {e.target} else running.Keys - {e.target};
      SeenNext(sorted, k);
      if NoRepeats(ts) {
        if e.action.Start? {
          StartAccounts(ts, done, first, running, total, e.target);
        } else {
          StopAccounts(ts, done, first, running, total, e.target, lastWeighted');
        }
      }
    }
  }

  lemma TrackedKeys(ts: seq<Target>, sorted: seq<Event>, k: nat, running: set<Target>)
    requires k <= |sorted| && Tracked(ts, sorted, k, running)
    ensures running == LiveTasks(ts, Seen(sorted, k))
  {
  }

  lemma SeenNext(sorted: seq<Event>, k: nat)
    requires k < |sorted|
    ensures Seen(sorted, k + 1) == Seen(sorted, k) + {sorted[k]}
  {
  }

  method ProcessEvent(e: Event, running: map<Target, real>, lastTime: int, lastWeighted: real, total: real)
    returns (ok: bool, running': map<Target, real>, lastWeighted': real, total': real)
    modifies e.target`weightedDuration
    ensures lastWeighted' ==
      if |running.Keys| > 0 then lastWeighted + (e.time - lastTime) as real / |running.Keys| as real else lastWeighted
    ensures ok <==> e.action.Start? || e.target in running
    ensures e.action.Start? ==> running' == running[e.target := lastWeighted'] && total' == total
    ensures !ok || e.action.Start? ==> e.target.weightedDuration == old(e.target.weightedDuration)
    ensures ok && e.action.Stop? ==>
      && running' == running - {e.target}
      && e.target.weightedDuration == lastWeighted' - running[e.target]
      && total' == total + e.target.weightedDuration
  {
    ok, running', lastWeighted', total' := true, running, lastWeighted, total;
    var numRunning := |running|;
    if numRunning > 0 {
      lastWeighted' := lastWeighted + (e.time - lastTime) as real / numRunning as real;
    }
    if e.action.Start? {
      running' := running[e.target := lastWeighted'];
    } else if e.target !in running {
      ok := false;
    } else {
      var weightedDuration := lastWeighted' - running[e.target];
      e.target.weightedDuration := weightedDuration;
      total' := total + weightedDuration;
      running' := running - {e.target};
    }
  }

  lemma BooksClosed(ts: seq<Target>, sorted: seq<Event>, first: int, running: map<Target, real>, total: real)
    requires EventsOf(ts, sorted) && Accounts(ts, Seen(sorted, |sorted|), first, running, total)
    ensures running == map[] && total == TotalWeighted(ts, ts)
    ensures forall t <- ts :: StopOf(t) in Seen(sorted, |sorted|) && t.start <= t.end
  {
    var done := Seen(sorted, |sorted|);
    forall e | e in sorted
      ensures e in done
    {
      var i :| 0 <= i < |sorted| && sorted[i] == e;
      SeenAt(sorted, |sorted|, i);
    }
    assert running.Keys == {};
    AllStopped(ts, ts, done);
  }

  /** The books after the events done: who is running since which accumulated time, and the
      total charged so far. */
  ghost predicate Accounts(ts: seq<Target>, done: set<Event>, first: int, running: map<Target, real>, total: real) {
    && running.Keys == LiveTasks(ts, done)
    && (forall t <- running :: running[t] == SumShares(ts, first, t.start))
    && (forall t <- ts :: StopOf(t) in done ==> t.start <= t.end && StartOf(t) in done)
    && total == TotalStopped(ts, ts, done)
  }

  /** Every task that has stopped has been charged its weighted duration. */
  ghost predicate Charged(ts: seq<Target>, done: set<Event>)
    reads ts
  {
    forall t <- ts :: StopOf(t) in done ==> t.weightedDuration == Weighted(ts, t)
  }

  lemma StartAccounts(ts: seq<Target>, done: set<Event>, first: int, running: map<Target, real>, total: real, t: Target)
    requires Accounts(ts, done, first, running, total)
    requires t in ts && StartOf(t) !in done
    ensures Accounts(ts, done + {StartOf(t)}, first, running[t := SumShares(ts, first, t.start)], total)
  {
    NotAStop(ts, ts, done, StartOf(t));
  }

  lemma StopAccounts(ts: seq<Target>, done: set<Event>, first: int, running: map<Target, real>, total: real, t: Target,
                     lastWeighted: real)
    requires NoRepeats(ts) && Accounts(ts, done, first, running, total)
    requires t in running && first <= t.start <= t.end && lastWeighted == SumShares(ts, first, t.end)
    ensures lastWeighted - running[t] == Weighted(ts, t)
    ensures Accounts(ts, done + {StopOf(t)}, first, running - {t}, total + Weighted(ts, t))
  {
    SharesAdd(ts, first, t.start, t.end);
    OneMoreStopped(ts, ts, done, t);
  }

  lemma Advance(ts: seq<Target>, sorted: seq<Event>, k: nat, done: set<Event>, running: set<Target>,
                lastTime: int, lastWeighted: real)
    requires NoRepeats(ts) && EventsOf(ts, sorted) && Sorted(sorted) && k < |sorted|
    requires lastTime == if k == 0 then sorted[0].time else sorted[k - 1].time
    requires lastWeighted == SumShares(ts, sorted[0].time, lastTime)
    requires done == Seen(sorted, k) && running == LiveTasks(ts, done)
    ensures MayFollow(ts, done, sorted[k], sorted[0].time)
    ensures SumShares(ts, sorted[0].time, sorted[k].time) ==
      if |running| > 0 then lastWeighted + (sorted[k].time - lastTime) as real / |running| as real else lastWeighted
  {
    EventAt(ts, sorted, k);
    SteadyWhileWaiting(ts, sorted, k, running, lastTime);
    SharesAdd(ts, sorted[0].time, lastTime, sorted[k].time);
  }

  /** Event e comes next: it is new, and if it stops a running task, the task does not end early;
      if it stops a task that is not running, that task ends before it starts. */
  ghost predicate MayFollow(ts: seq<Target>, done: set<Event>, e: Event, first: int) {
    && e.target in ts && e !in done
    && match e.action
       case Start => e == StartOf(e.target)
       case Stop =>
         && e == StopOf(e.target)
         && if e.target in LiveTasks(ts, done) then first <= e.target.start <= e.target.end
            else e.target.end < e.target.start
  }

  lemma EventAt(ts: seq<Target>, sorted: seq<Event>, k: nat)
    requires EventsOf(ts, sorted) && Sorted(sorted) && k < |sorted|
    ensures MayFollow(ts, Seen(sorted, k), sorted[k], sorted[0].time)
    ensures sorted[0].time <= (if k == 0 then sorted[0].time else sorted[k - 1].time)
  {
    NotSeenBefore(sorted, k);
    assert sorted[k] in sorted;
    if k > 1 { assert NotAfter(sorted[0], sorted[k - 1]); }
    if sorted[k].action.Stop? {
      if sorted[k].target in LiveTasks(ts, Seen(sorted, k)) {
        StartedEarlier(ts, sorted, k);
      } else {
        StopBeforeStart(ts, sorted, k);
      }
    }
  }

  /** From the last event to the next one, the running tasks are the ones in the dictionary. */
  lemma SteadyWhileWaiting(ts: seq<Target>, sorted: seq<Event>, k: nat, running: set<Target>, lastTime: int)
    requires NoRepeats(ts) && EventsOf(ts, sorted) && Sorted(sorted) && k < |sorted|
    requires lastTime == if k == 0 then sorted[0].time else sorted[k - 1].time
    requires running == LiveTasks(ts, Seen(sorted, k))
    ensures lastTime <= sorted[k].time
    ensures SumShares(ts, lastTime, sorted[k].time) ==
      if |running| == 0 then 0.0 else (sorted[k].time - lastTime) as real / |running| as real
  {
    if k > 0 { assert NotAfter(sorted[k - 1], sorted[k]); }
    forall u | lastTime <= u < sorted[k].time
      ensures Running(ts, u) == |running|
    {
      forall t
        ensures t in running <==> t in ts && RunsAt(t, u)
      {
        if t in ts {
          Processed(sorted, k, StartOf(t), u);
          Processed(sorted, k, StopOf(t), u);
        }
      }
      CountRunning(ts, running, u);
    }
    SteadyShares(ts, lastTime, sorted[k].time, |running|);
  }

  lemma Processed(sorted: seq<Event>, k: nat, e: Event, u: int)
    requires Sorted(sorted) && k < |sorted| && e in sorted
    requires (if k == 0 then sorted[0].time else sorted[k - 1].time) <= u < sorted[k].time
    ensures e in Seen(sorted, k) <==> e.time <= u
  {
    var i :| 0 <= i < |sorted| && sorted[i] == e;
    if i < k {
      SeenAt(sorted, k, i);
      assert i == k - 1 || NotAfter(sorted[i], sorted[k - 1]);
    } else {
      assert i == k || NotAfter(sorted[k], sorted[i]);
      if e in Seen(sorted, k) {
        var j := PositionOf(sorted, k, e);
      }
    }
  }

  lemma {:induction false} CountRunning(ts: seq<Target>, running: set<Target>, u: int)
    requires NoRepeats(ts)
    requires forall t :: t in running <==> t in ts && RunsAt(t, u)
    ensures Running(ts, u) == |running|
  {
    if ts == [] {
      assert running == {};
    } else {
      var init, t := ts[..|ts| - 1], ts[|ts| - 1];
      assert ts == init + [t];
      CountRunning(init, running - {t}, u);
    }
  }

  lemma {:induction false} SteadyShares(ts: seq<Target>, lo: int, hi: int, n: nat)
    requires lo <= hi && forall u :: lo <= u < hi ==> Running(ts, u) == n
    ensures SumShares(ts, lo, hi) == if n == 0 then 0.0 else (hi - lo) as real / n as real
    decreases hi - lo
  {
    if lo < hi {
      SteadyShares(ts, lo, hi - 1, n);
      assert Running(ts, hi - 1) == n;
    }
  }

  /** A stop whose start has not been seen belongs to a task that ends before it starts. */
  lemma StopBeforeStart(ts: seq<Target>, sorted: seq<Event>, k: nat)
    requires EventsOf(ts, sorted) && Sorted(sorted) && k < |sorted| && sorted[k].action.Stop?
    requires sorted[k].target !in LiveTasks(ts, Seen(sorted, k))
    ensures sorted[k].target in ts && sorted[k].target.end < sorted[k].target.start
  {
    hide NoRepeats, Seen;
    var t := sorted[k].target;
    assert sorted[k] in sorted;
    NotSeenBefore(sorted, k);
    UnseenIsNotBefore(sorted, k, StartOf(t));
  }

  lemma UnseenIsNotBefore(sorted: seq<Event>, k: nat, e: Event)
    requires Sorted(sorted) && k < |sorted| && e in sorted && e !in Seen(sorted, k)
    ensures e == sorted[k] || NotAfter(sorted[k], e)
  {
    hide NotAfter;
    var i :| 0 <= i < |sorted| && sorted[i] == e;
    if i < k { SeenAt(sorted, k, i); }
  }

  lemma StartedEarlier(ts: seq<Target>, sorted: seq<Event>, k: nat)
    requires EventsOf(ts, sorted) && Sorted(sorted) && k < |sorted| && sorted[k].action.Stop?
    requires sorted[k].target in LiveTasks(ts, Seen(sorted, k))
    ensures sorted[0].time <= sorted[k].target.start <= sorted[k].target.end
  {
    var i := PositionOf(sorted, k, StartOf(sorted[k].target));
    assert NotAfter(sorted[i], sorted[k]);
    assert i == 0 || NotAfter(sorted[0], sorted[i]);
  }

  lemma NothingStopped(ts: seq<Target>, part: seq<Target>)
    ensures TotalStopped(ts, part, {}) == 0.0
  {
    if part != [] { NothingStopped(ts, part[..|part| - 1]); }
  }

  lemma {:induction false} NotAStop(ts: seq<Target>, part: seq<Target>, done: set<Event>, e: Event)
    requires e.action.Start?
    ensures TotalStopped(ts, part, done + {e}) == TotalStopped(ts, part, done)
  {
    if part != [] { NotAStop(ts, part[..|part| - 1], done, e); }
  }

  lemma {:induction false} OneMoreStopped(ts: seq<Target>, part: seq<Target>, done: set<Event>, t: Target)
    requires NoRepeats(part) && StopOf(t) !in done
    ensures TotalStopped(ts, part, done + {StopOf(t)}) ==
      TotalStopped(ts, part, done) + if t in part then Weighted(ts, t) else 0.0
  {
    if part != [] {
      var init := part[..|part| - 1];
      OneMoreStopped(ts, init, done, t);
      assert part == init + [part[|part| - 1]];
    }
  }

  lemma {:induction false} AllStopped(ts: seq<Target>, part: seq<Target>, done: set<Event>)
    requires forall t <- part :: StopOf(t) in done
    ensures TotalStopped(ts, part, done) == TotalWeighted(ts, part)
  {
    if part != [] { AllStopped(ts, part[..|part| - 1], done); }
  }

  lemma {:induction false} BusyAdd(ts: seq<Target>, lo: int, mid: int, hi: int)
    requires lo <= mid <= hi
    ensures Busy(ts, lo, hi) == Busy(ts, lo, mid) + Busy(ts, mid, hi)
    decreases hi - mid
  {
    if mid < hi { BusyAdd(ts, lo, mid, hi - 1); }
  }

  lemma {:induction false} IdleStretch(ts: seq<Target>, lo: int, hi: int)
    requires lo <= hi && forall u :: lo <= u < hi ==> Idle(ts, u)
    ensures Busy(ts, lo, hi) == 0
    decreases hi - lo
  {
    if lo < hi {
      IdleStretch(ts, lo, hi - 1);
      assert Idle(ts, hi - 1);
    }
  }

  lemma RunningOfTwo(a: Target, b: Target, u: int)
    ensures Running([a, b], u) == (if RunsAt(a, u) then 1 else 0) + if RunsAt(b, u) then 1 else 0
    ensures MinStart([a, b]) == (if b.start < a.start then b.start else a.start)
    ensures MaxEnd([a, b]) == if a.end <= 0 && b.end <= 0 then 0 else if b.end > a.end then b.end else a.end
  {
    assert [a, b][..1] == [a] && [a][..0] == [];
    assert Running([a], u) == if RunsAt(a, u) then 1 else 0;
    assert MinStart([a]) == a.start && MaxEnd([a]) == if a.end > 0 then a.end else 0;
  }

  /** With one task after another, the gap between them is idle. */
  lemma GapBetween(a: Target, b: Target)
    requires 0 <= a.start <= a.end <= b.start <= b.end && a.end > 0
    ensures MinStart([a, b]) == a.start && MaxEnd([a, b]) == b.end
    ensures Busy([a, b], a.start, b.end) == a.Duration() + b.Duration()
  {
    hide MinStart, MaxEnd, Running, Busy;
    var ts := [a, b];
    forall u
      ensures Idle(ts, u) <==> !RunsAt(a, u) && !RunsAt(b, u)
    {
      RunningOfTwo(a, b, u);
    }
    RunningOfTwo(a, b, 0);
    BusyAdd(ts, a.start, a.end, b.end);
    BusyAdd(ts, a.end, b.start, b.end);
    BusyWithinLength(ts, a.start, a.end);
    IdleStretch(ts, a.end, b.start);
    BusyWithinLength(ts, b.start, b.end);
  }

  /** Being off by a second, twice the half second of the comment, draws no warning. */
  method NoWarningForASecond() returns (r: Outcome)
    ensures r.Summary? && !r.warned && r.latest - r.earliest == 3000 && r.weightedTotal == 2000.0
  {
    var a := new Target(0, 1000);
    var b := new Target(2000, 3000);
    hide Busy, MinStart, MaxEnd, Earliest;
    GapBetween(a, b);
    PairwiseNoRepeats([a, b]);
    r := SummarizeEntries([a, b]);
  }

  /** The whole tool: summarize the last build of a log. */
  method SummarizeLog(log: seq<Line>) returns (targets: seq<Target>, r: Outcome)
    ensures Grouped(LastBuild(Records(log)), targets)
    ensures r.Summary? <==> targets != [] && forall t <- targets :: t.start <= t.end
    ensures r.Summary? ==>
      && (forall t <- targets :: t.weightedDuration == SumShares(targets, t.start, t.end))
      && r.weightedTotal == Busy(targets, MinStart(targets), MaxEnd(targets)) as real
  {
    targets := ReadTargets(log, false);
    GroupedNoRepeats(LastBuild(Records(log)), targets);
    r := SummarizeEntries(targets);
  }

  lemma {:induction false} PairwiseNoRepeats<T>(s: seq<T>)
    requires forall i, j :: 0 <= i < j < |s| ==> s[i] != s[j]
    ensures NoRepeats(s)
  {
    if s != [] { PairwiseNoRepeats(s[..|s| - 1]); }
  }

  lemma GroupedNoRepeats(rs: seq<Record>, targets: seq<Target>)
    requires Grouped(rs, targets)
    ensures NoRepeats(targets)
  {
    PairwiseNoRepeats(targets);
  }
}
