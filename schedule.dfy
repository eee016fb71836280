/**
 * The schedule allocator of the campaign store: tentative send times for a
 * list of leads, at most 300 a day and 5 seconds apart within a day.
 * Times are epoch milliseconds; the ISO-8601 rendering is not modelled.
 * Note that the effective bulk insert of the store does not use this
 * allocator (it spaces rows one minute apart instead, see Campaigns).
 */
module Schedule {

  const MaxPerDay: nat := 300
  const IntervalMs: nat := 5000
  const DayMs: nat := 24 * 60 * 60 * 1000

  /** One tentative send time per lead id, in input order. */
  function TentativeSendDates(leadIds: seq<int>, start: int): (dates: seq<int>)
    ensures |dates| == |leadIds|
  {
    seq(|leadIds|, idx requires 0 <= idx < |leadIds| =>
      start + (idx / MaxPerDay) * DayMs + (idx % MaxPerDay) * IntervalMs)
  }

  /** Whole days between `start` and `t`. */
  function DayOffset(t: int, start: int): int {
    (t - start) / DayMs
  }

  /** Milliseconds from the start of `t`'s day offset. */
  function TimeInDay(t: int, start: int): int {
    (t - start) % DayMs
  }

  /** The i-th date lies on day offset i div 300, at slot i mod 300 of that day, 5 s per slot. */
  lemma SendDateAt(leadIds: seq<int>, start: int, i: nat)
    requires i < |leadIds|
    ensures var d := TentativeSendDates(leadIds, start)[i];
            && DayOffset(d, start) == i / MaxPerDay
            && TimeInDay(d, start) == (i % MaxPerDay) * IntervalMs
  {
    var q, r := i / MaxPerDay, i % MaxPerDay;
    var d := TentativeSendDates(leadIds, start)[i];
    assert d - start == q * DayMs + r * IntervalMs;
    assert 0 <= r * IntervalMs < DayMs;
  }

  lemma {:induction false} BoundedSetCard(s: set<int>, lo: int, n: nat)
    requires forall x :: x in s ==> lo <= x < lo + n
    ensures |s| <= n
  {
    if n > 0 {
      var top := lo + n - 1;
      BoundedSetCard(s - {top}, lo, n - 1);
    } else {
      forall x | x in s ensures x < lo { }
    }
  }

  /** No more than 300 of the dates share a day offset. */
  lemma AtMostMaxPerDay(leadIds: seq<int>, start: int, day: int)
    ensures var dates := TentativeSendDates(leadIds, start);
            |set i | 0 <= i < |dates| && DayOffset(dates[i], start) == day| <= MaxPerDay
  {
    var dates := TentativeSendDates(leadIds, start);
    var same := set i | 0 <= i < |dates| && DayOffset(dates[i], start) == day;
    forall i | i in same ensures day * MaxPerDay <= i < day * MaxPerDay + MaxPerDay {
      SendDateAt(leadIds, start, i);
    }
    BoundedSetCard(same, day * MaxPerDay, MaxPerDay);
  }

  /** Consecutive dates on the same day are exactly 5 seconds apart. */
  lemma SpacingWithinDay(leadIds: seq<int>, start: int, i: nat)
    requires i + 1 < |leadIds|
    requires var dates := TentativeSendDates(leadIds, start);
             DayOffset(dates[i], start) == DayOffset(dates[i + 1], start)
    ensures var dates := TentativeSendDates(leadIds, start);
            dates[i + 1] - dates[i] == IntervalMs
  {
    SendDateAt(leadIds, start, i);
    SendDateAt(leadIds, start, i + 1);
  }

  /** The dates strictly increase along the input. */
  lemma StrictlyIncreasing(leadIds: seq<int>, start: int, i: nat, j: nat)
    requires i < j < |leadIds|
    ensures var dates := TentativeSendDates(leadIds, start);
            dates[i] < dates[j]
  {
    var qi, qj := i / MaxPerDay, j / MaxPerDay;
    var ri, rj := i % MaxPerDay, j % MaxPerDay;
    assert qi <= qj;
    if qi == qj {
      assert ri < rj;
    } else {
      assert qi * DayMs + DayMs <= qj * DayMs;
    }
  }

  /** Index 0 is the start, index 5 is 25 s later, index 300 is exactly one day later. */
  lemma ScheduleLandmarks(leadIds: seq<int>, start: int)
    requires |leadIds| >= 301
    ensures var dates := TentativeSendDates(leadIds, start);
            && dates[0] == start
            && dates[5] == start + 25000
            && dates[299] == start + 299 * IntervalMs
            && dates[300] == start + DayMs
  {
  }

  /** 301 leads from 2024-01-01T00:00:00Z: the 301st is due at 2024-01-02T00:00:00Z. */
  lemma NewYearScenario(leadIds: seq<int>)
    requires |leadIds| == 301
    ensures var dates := TentativeSendDates(leadIds, 1704067200000);
            && dates[0] == 1704067200000
            && dates[5] == 1704067225000
            && dates[300] == 1704153600000
  {
  }
}
