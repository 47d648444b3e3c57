/** One pass of the maintenance loop in maintenance.rs: pick the next stop
    time and the next resume time from two daily tables, measure how far
    away each one is, and either suspend the shop until the resume time or
    just wait. Times of day are whole seconds since midnight (Bangkok
    local time), in [0, 86400).

    The loop as written never suspends the shop: the stop table is not in
    time order and the "+ 1 day" of a time of day is a no-op, so the stop
    is always 23:58 and always looks further away than the resume. The
    corrected schedule at the end of the module measures distances around
    the clock and picks the nearest entry. */
module Maintenance {

  const SecondsPerDay: int := 86400

  predicate IsTimeOfDay(t: int)
  {
    0 <= t < SecondsPerDay
  }

  function Hms(h: nat, m: nat): (t: int)
    requires h < 24 && m < 60
    ensures IsTimeOfDay(t)
  {
    h * 3600 + m * 60
  }

  /** `restart_times`, in the order listed: 23:58 comes first. */
  const RestartTimes: seq<int> :=
    [Hms(23, 58), Hms(3, 58), Hms(7, 58), Hms(11, 58), Hms(15, 58), Hms(19, 58), Hms(21, 58)]

  /** `resume_times`, in the order listed (this one is ascending). */
  const ResumeTimes: seq<int> :=
    [Hms(0, 6), Hms(4, 6), Hms(8, 6), Hms(12, 6), Hms(16, 6), Hms(20, 6), Hms(22, 6)]

  const StopAnnouncement: string :=
    "#Announce BOTSHOP หยุดทำงานชั่วคราว เนื่องจาก SERVER กำลังจะ RESTART ในอีก 2 นาที"

  const ResumeAnnouncement: string :=
    "#Announce BOTSHOP กลับมาทำงานปกติแล้ว ลุยยยยย"

  predicate IsTimetable(table: seq<int>)
  {
    |table| > 0 && forall i :: 0 <= i < |table| ==> IsTimeOfDay(table[i])
  }

  // ---------------------------------------------------------------------
  // The loop as written
  // ---------------------------------------------------------------------

  /** Index of the first entry, in list order, strictly later than `now`. */
  function FirstLaterIndex(table: seq<int>, now: int): (r: int)
    ensures -1 <= r < |table|
    ensures r == -1 <==> forall j :: 0 <= j < |table| ==> table[j] <= now
    ensures r >= 0 ==> table[r] > now && forall j :: 0 <= j < r ==> table[j] <= now
    decreases |table|
  {
    if |table| == 0 then -1
    else if table[0] > now then 0
    else
      var r := FirstLaterIndex(table[1..], now);
      if r == -1 then -1 else r + 1
  }

  /** The search loop and its fallback: the first entry later than `now`
      in list order, or the first entry of the table when none is later. */
  function NextInListOrder(table: seq<int>, now: int): (t: int)
    requires |table| > 0
    ensures t in table
    ensures (exists j :: 0 <= j < |table| && table[j] > now) ==>
      exists i :: 0 <= i < |table| && table[i] == t && t > now && forall j :: 0 <= j < i ==> table[j] <= now
    ensures (forall j :: 0 <= j < |table| ==> table[j] <= now) ==> t == table[0]
  {
    var i := FirstLaterIndex(table, now);
    if i == -1 then table[0] else table[i]
  }

  /** `NaiveTime + Duration::days(1)`: time-of-day arithmetic wraps around
      midnight, so adding a whole day lands on the same time. */
  function AddOneDay(t: int): (r: int)
    requires IsTimeOfDay(t)
    ensures r == t
  {
    (t + SecondsPerDay) % SecondsPerDay
  }

  /** The duration computation as written: `next - now` when `next` is
      later, otherwise `(next + 1 day) - now`, which is again `next - now`. */
  function DurationAsWritten(next: int, now: int): (d: int)
    requires IsTimeOfDay(next) && IsTimeOfDay(now)
    ensures next > now ==> 0 < d < SecondsPerDay
    ensures next <= now ==> d <= 0
  {
    if next > now then next - now else AddOneDay(next) - now
  }

  /** `num_seconds() as u64`: a negative count turns into a huge one. */
  function AsU64(n: int): (r: nat)
    requires -0x8000_0000_0000_0000 <= n < 0x8000_0000_0000_0000
    ensures r < 0x1_0000_0000_0000_0000
    ensures (r - n) % 0x1_0000_0000_0000_0000 == 0
    ensures n >= 0 ==> r == n
  {
    if n < 0 then n + 0x1_0000_0000_0000_0000 else n
  }

  /** What one pass does, in order. */
  datatype Action = Sleep(seconds: nat) | SetActive(active: bool) | Announce(line: string)

  /** The choice made at the top of one pass. */
  datatype Decision = Decision(nextStop: int, nextResume: int, untilStop: int, untilResume: int)
  {
    predicate Suspends()
    {
      untilStop < untilResume
    }
  }

  /** The six steps of a suspending pass: sleep until the stop, clear the
      flag, announce the stop, sleep until the resume, set the flag,
      announce the resume. */
  function SuspendActions(untilStop: nat, untilResume: nat): (acts: seq<Action>)
    ensures |acts| == 6 && acts[0] == Sleep(untilStop) && acts[3] == Sleep(untilResume)
  {
    [Sleep(untilStop), SetActive(false), Announce(StopAnnouncement),
     Sleep(untilResume), SetActive(true), Announce(ResumeAnnouncement)]
  }

  /** The flag values a sequence of actions writes, in order. */
  function FlagWrites(actions: seq<Action>): (ws: seq<bool>)
    ensures |ws| <= |actions|
  {
    if |actions| == 0 then []
    else (if actions[0].SetActive? then [actions[0].active] else []) + FlagWrites(actions[1..])
  }

  /** A suspending pass clears the flag and later sets it, and each write is
      followed by its announcement. */
  lemma {:induction false} SuspendWritesFalseThenTrue(untilStop: nat, untilResume: nat)
    ensures var acts := SuspendActions(untilStop, untilResume);
      && FlagWrites(acts) == [false, true]
      && acts[1] == SetActive(false) && acts[2] == Announce(StopAnnouncement)
      && acts[4] == SetActive(true) && acts[5] == Announce(ResumeAnnouncement)
  {
    var acts := SuspendActions(untilStop, untilResume);
    assert FlagWrites(acts[5..]) == [];
    assert FlagWrites(acts[4..]) == [true];
    assert FlagWrites(acts[2..]) == [true];
    assert FlagWrites(acts[1..]) == [false, true];
  }

  /** The selection and durations at the top of one pass at time `now`. */
  function DecideAsWritten(stops: seq<int>, resumes: seq<int>, now: int): (dec: Decision)
    requires IsTimetable(stops) && IsTimetable(resumes) && IsTimeOfDay(now)
    ensures dec.nextStop == NextInListOrder(stops, now) && dec.nextResume == NextInListOrder(resumes, now)
    ensures dec.untilStop == dec.nextStop - now && dec.untilResume == dec.nextResume - now
  {
    var stop := NextInListOrder(stops, now);
    var resume := NextInListOrder(resumes, now);
    Decision(stop, resume, DurationAsWritten(stop, now), DurationAsWritten(resume, now))
  }

  /** One pass of the loop, started at `now` with the flag at `active`.
      `later` is the time of day when the stop announcement has been sent;
      the wait for the resume time is measured again from it. Yields the
      flag afterwards and the actions taken. */
  function IterationAsWritten(stops: seq<int>, resumes: seq<int>, active: bool, now: int, later: int): (res: (bool, seq<Action>))
    requires IsTimetable(stops) && IsTimetable(resumes) && IsTimeOfDay(now) && IsTimeOfDay(later)
    ensures DecideAsWritten(stops, resumes, now).Suspends() ==> res.0 && FlagWrites(res.1) == [false, true]
    ensures !DecideAsWritten(stops, resumes, now).Suspends() ==>
      res.0 == active && FlagWrites(res.1) == [] && |res.1| == 1 && res.1[0].Sleep?
  {
    var dec := DecideAsWritten(stops, resumes, now);
    if dec.Suspends() then
      var untilResume := DurationAsWritten(dec.nextResume, later);
      SuspendWritesFalseThenTrue(AsU64(dec.untilStop), AsU64(untilResume));
      (true, SuspendActions(AsU64(dec.untilStop), AsU64(untilResume)))
    else
      assert FlagWrites([Sleep(AsU64(dec.untilResume))][1..]) == [];
      (active, [Sleep(AsU64(dec.untilResume))])
  }

  /** Selection is by list order, not by nearness: since 23:58 is listed
      first, it is the next stop at every time of day. */
  lemma NextStopIsAlways2358(now: int)
    requires IsTimeOfDay(now)
    ensures NextInListOrder(RestartTimes, now) == Hms(23, 58)
  {
    if now < Hms(23, 58) {
      assert FirstLaterIndex(RestartTimes, now) == 0;
    } else {
      assert forall j :: 0 <= j < |RestartTimes| ==> RestartTimes[j] <= now;
    }
  }

  /** At 10:00 the nearest stop is 11:58, yet the loop picks 23:58. */
  lemma ListOrderSkipsNearerStop()
    ensures NextInListOrder(RestartTimes, Hms(10, 0)) == Hms(23, 58)
    ensures Hms(11, 58) in RestartTimes && Hms(10, 0) < Hms(11, 58) < Hms(23, 58)
  {
    NextStopIsAlways2358(Hms(10, 0));
  }

  /** With the shipped tables the comparison that leads to a suspension is
      false at every time of day: the loop never clears the flag and only
      ever takes the waiting branch. */
  lemma {:induction false} NeverSuspends(now: int, later: int, active: bool)
    requires IsTimeOfDay(now) && IsTimeOfDay(later)
    ensures !DecideAsWritten(RestartTimes, ResumeTimes, now).Suspends()
    ensures IterationAsWritten(RestartTimes, ResumeTimes, active, now, later).0 == active
    ensures FlagWrites(IterationAsWritten(RestartTimes, ResumeTimes, active, now, later).1) == []
  {
    NextStopIsAlways2358(now);
    var resume := NextInListOrder(ResumeTimes, now);
    assert resume <= Hms(22, 6);
  }

  /** With one stop at 23:58 and one resume at 00:06, at 23:00 the loop
      measures the resume as 22h54m in the past and takes the waiting
      branch with a negative count of seconds, which the cast to `u64`
      turns into a request to sleep 2^64 − 82440 s. Such a deadline is
      past what the timer can represent, so the loop effectively never
      wakes. */
  lemma SingleEntryExampleAsWritten()
    ensures var dec := DecideAsWritten([Hms(23, 58)], [Hms(0, 6)], Hms(23, 0));
      && dec.untilStop == 3480
      && dec.untilResume == -82440
      && !dec.Suspends()
      && IterationAsWritten([Hms(23, 58)], [Hms(0, 6)], true, Hms(23, 0), Hms(23, 0)).1
         == [Sleep(0x1_0000_0000_0000_0000 - 82440)]
  {
  }

  // ---------------------------------------------------------------------
  // The corrected schedule
  // ---------------------------------------------------------------------

  /** Seconds from `now` until the next occurrence of the time of day
      `next`, counting a time not later than `now` as tomorrow's. */
  function WrappedDuration(next: int, now: int): (d: int)
    requires IsTimeOfDay(next) && IsTimeOfDay(now)
    ensures 0 < d <= SecondsPerDay
    ensures (now + d) % SecondsPerDay == next
  {
    if next > now then next - now else next + SecondsPerDay - now
  }

  /** The entry of `table` that comes round soonest after `now`; on a tie,
      the one listed first. */
  function NextEarliest(table: seq<int>, now: int): (t: int)
    requires IsTimetable(table) && IsTimeOfDay(now)
    ensures t in table
    ensures forall j :: 0 <= j < |table| ==> WrappedDuration(t, now) <= WrappedDuration(table[j], now)
    decreases |table|
  {
    if |table| == 1 then table[0]
    else
      var rest := NextEarliest(table[1..], now);
      if WrappedDuration(table[0], now) <= WrappedDuration(rest, now) then table[0] else rest
  }

  /** The selection and durations of one corrected pass at time `now`. */
  function DecideCorrected(stops: seq<int>, resumes: seq<int>, now: int): (dec: Decision)
    requires IsTimetable(stops) && IsTimetable(resumes) && IsTimeOfDay(now)
    ensures dec.nextStop in stops && dec.nextResume in resumes
    ensures 0 < dec.untilStop <= SecondsPerDay && 0 < dec.untilResume <= SecondsPerDay
    ensures forall j :: 0 <= j < |stops| ==> dec.untilStop <= WrappedDuration(stops[j], now)
    ensures forall j :: 0 <= j < |resumes| ==> dec.untilResume <= WrappedDuration(resumes[j], now)
  {
    var stop := NextEarliest(stops, now);
    var resume := NextEarliest(resumes, now);
    Decision(stop, resume, WrappedDuration(stop, now), WrappedDuration(resume, now))
  }

  /** One pass of the corrected loop: a suspending pass writes false then
      true, a waiting pass leaves the flag alone, and every sleep is a real
      wait of at most one day. */
  function IterationCorrected(stops: seq<int>, resumes: seq<int>, active: bool, now: int, later: int): (res: (bool, seq<Action>))
    requires IsTimetable(stops) && IsTimetable(resumes) && IsTimeOfDay(now) && IsTimeOfDay(later)
    ensures DecideCorrected(stops, resumes, now).Suspends() ==> res.0 && FlagWrites(res.1) == [false, true]
    ensures !DecideCorrected(stops, resumes, now).Suspends() ==> res.0 == active && FlagWrites(res.1) == []
    ensures forall i :: 0 <= i < |res.1| && res.1[i].Sleep? ==> 0 < res.1[i].seconds <= SecondsPerDay
  {
    var dec := DecideCorrected(stops, resumes, now);
    if dec.Suspends() then
      var untilResume := WrappedDuration(dec.nextResume, later);
      SuspendWritesFalseThenTrue(dec.untilStop, untilResume);
      (true, SuspendActions(dec.untilStop, untilResume))
    else
      assert FlagWrites([Sleep(dec.untilResume)][1..]) == [];
      (active, [Sleep(dec.untilResume)])
  }

  /** Whenever some stop comes round before every resume, the corrected
      pass suspends; when some resume comes round no later than every
      stop, it waits. */
  lemma {:induction false} CorrectedSuspendsIffStopIsSooner(stops: seq<int>, resumes: seq<int>, now: int)
    requires IsTimetable(stops) && IsTimetable(resumes) && IsTimeOfDay(now)
    ensures DecideCorrected(stops, resumes, now).Suspends() <==>
      exists i :: 0 <= i < |stops| && forall j :: 0 <= j < |resumes| ==>
        WrappedDuration(stops[i], now) < WrappedDuration(resumes[j], now)
  {
    var dec := DecideCorrected(stops, resumes, now);
    var i :| 0 <= i < |stops| && stops[i] == dec.nextStop;
    var k :| 0 <= k < |resumes| && resumes[k] == dec.nextResume;
    if dec.Suspends() {
      assert forall j :: 0 <= j < |resumes| ==> WrappedDuration(stops[i], now) < WrappedDuration(resumes[j], now);
    } else {
      forall i' | 0 <= i' < |stops|
        ensures !(WrappedDuration(stops[i'], now) < WrappedDuration(resumes[k], now))
      {
      }
    }
  }

  /** How far each resume time is from 10:00: at least the 2h06m to 12:06. */
  lemma ResumesFromTen(j: int)
    requires 0 <= j < |ResumeTimes|
    ensures WrappedDuration(ResumeTimes[j], Hms(10, 0)) >= 7560
  {
  }

  /** The corrected loop does suspend with the shipped tables: at 10:00
      the next stop is 11:58, 1h58m away, before the 12:06 resume. */
  lemma {:induction false} CorrectedSuspendsBeforeNoon()
    ensures DecideCorrected(RestartTimes, ResumeTimes, Hms(10, 0)).Suspends()
    ensures IterationCorrected(RestartTimes, ResumeTimes, true, Hms(10, 0), Hms(11, 58)).0
    ensures FlagWrites(IterationCorrected(RestartTimes, ResumeTimes, true, Hms(10, 0), Hms(11, 58)).1) == [false, true]
  {
    var now := Hms(10, 0);
    assert WrappedDuration(RestartTimes[3], now) == 7080;
    forall j | 0 <= j < |ResumeTimes|
      ensures WrappedDuration(RestartTimes[3], now) < WrappedDuration(ResumeTimes[j], now)
    {
      ResumesFromTen(j);
    }
    CorrectedSuspendsIffStopIsSooner(RestartTimes, ResumeTimes, now);
  }

  /** With one stop at 23:58 and one resume at 00:06, at 23:00 the
      corrected measure puts the stop 58 minutes away and the resume 66
      minutes away, so the pass suspends, and the resume comes 8 minutes
      after the stop. */
  lemma SingleEntryExampleCorrected()
    ensures var dec := DecideCorrected([Hms(23, 58)], [Hms(0, 6)], Hms(23, 0));
      && dec.untilStop == 3480
      && dec.untilResume == 3960
      && dec.Suspends()
      && IterationCorrected([Hms(23, 58)], [Hms(0, 6)], true, Hms(23, 0), Hms(23, 58)).1
         == SuspendActions(3480, 480)
  {
  }
}
