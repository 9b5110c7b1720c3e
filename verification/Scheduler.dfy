/**
  Scheduler ticks over a fixed list of schedules: which occurrence a tick looks at, and what
  every run of ticks leaves behind for every occurrence.
 */
module Scheduler {
  import opened Wrappers

  const DAY: int := 24 * 60 * 60

  /** `EveryNDays` counts from the last change; the others share one time of day. */
  datatype Kind = EveryNDays(days: int) | TimeOfDay(hour: nat, minute: nat) | Unknown

  datatype Task = BackupTask | CleanupTask | NoTask

  datatype Schedule = Schedule(id: nat, kind: Kind, lastChangedAt: int, task: Task) {
    predicate Valid() { kind.TimeOfDay? ==> kind.hour < 24 && kind.minute < 60 }
  }

  function Days(n: int): int { if n < 1 then 1 else n }

  function Period(s: Schedule): int {
    if s.kind.EveryNDays? then Days(s.kind.days) * DAY else DAY
  }

  /** The one occurrence a tick at `now` is about. */
  function Expected(s: Schedule, now: int): Option<int> {
    match s.kind
    case EveryNDays(days) =>
      var period := Days(days) * DAY;
      var elapsed := now - s.lastChangedAt;
      if elapsed < period then None else Some(s.lastChangedAt + (elapsed / period) * period)
    case TimeOfDay(hour, minute) =>
      var today := now - now % DAY + hour * 3600 + minute * 60;
      var candidate := if today > now then today - DAY else today;
      if candidate <= s.lastChangedAt then None else Some(candidate)
    case Unknown => None
  }

  /** The times a schedule is meant to run at. */
  predicate Occurrence(s: Schedule, o: int) {
    && o > s.lastChangedAt
    && match s.kind
       case EveryNDays(days) => (o - s.lastChangedAt) % Period(s) == 0
       case TimeOfDay(hour, minute) => o % DAY == hour * 3600 + minute * 60
       case Unknown => false
  }

  lemma MulOrder(a: int, b: int, period: int)
    requires period > 0
    ensures a < b ==> a * period + period <= b * period
  {
    if a < b {
      assert (a + 1) * period <= b * period;
    }
  }

  lemma MultipleWithin(a: int, b: int, period: int)
    requires period > 0 && a % period == 0
    ensures a <= b < a + period <==> a == (b / period) * period
  {
    var q, k := b / period, a / period;
    assert b == q * period + b % period && 0 <= b % period < period;
    assert a == k * period;
    MulOrder(q, k, period);
    MulOrder(k, q, period);
  }

  lemma MultipleMod(q: int, period: int)
    requires period > 0
    ensures (q * period) % period == 0
  {
    var r := (q * period) % period;
    var d := (q * period) / period;
    assert q * period == d * period + r;
    MulOrder(d, q, period);
    MulOrder(q, d, period);
  }

  lemma EveryNDaysLatest(period: int, last: int, now: int, o: int)
    requires period > 0
    ensures (now - last >= period && o == last + ((now - last) / period) * period)
            <==> o > last && (o - last) % period == 0 && o <= now < o + period
  {
    var elapsed := now - last;
    EveryNDaysPositive(period, elapsed);
    MultipleMod(elapsed / period, period);
    if (o - last) % period == 0 {
      MultipleWithin(o - last, elapsed, period);
    }
  }

  lemma TimeOfDayLatest(offset: int, now: int, o: int)
    requires 0 <= offset < DAY
    ensures var today := now - now % DAY + offset;
            o == (if today > now then today - DAY else today) <==> o % DAY == offset && o <= now < o + DAY
  {}

  /** A tick is about an occurrence exactly while that occurrence is the latest one. */
  lemma ExpectedIsLatest(s: Schedule, now: int, o: int)
    requires s.Valid()
    ensures Expected(s, now) == Some(o) <==> Occurrence(s, o) && o <= now < o + Period(s)
  {
    match s.kind {
      case EveryNDays(days) => EveryNDaysLatest(Days(days) * DAY, s.lastChangedAt, now, o);
      case TimeOfDay(hour, minute) => TimeOfDayLatest(hour * 3600 + minute * 60, now, o);
      case Unknown =>
    }
  }

  lemma EveryNDaysPositive(period: int, elapsed: int)
    requires period > 0
    ensures elapsed >= period <==> (elapsed / period) * period > 0
  {}

  // ----- Ticks -----

  /** An occurrence of a schedule. */
  datatype Slot = Slot(id: nat, at: int)

  /** What happens when a due slot is dispatched. */
  datatype Verdict = Busy | Refused | Accepted

  /** The operations created and the missed runs recorded, in order. */
  datatype Log = Log(created: seq<Slot>, missed: seq<Slot>)

  predicate Recorded(log: Log, slot: Slot) { slot in log.created || slot in log.missed }

  function Dispatch(log: Log, s: Schedule, now: int, verdict: Verdict): Log {
    var expected := Expected(s, now);
    if expected.None? then log
    else
      var slot := Slot(s.id, expected.value);
      if Recorded(log, slot) then log
      else if s.task.NoTask? || !verdict.Accepted? then log.(missed := log.missed + [slot])
      else log.(created := log.created + [slot])
  }

  datatype Tick = Tick(now: int, verdicts: nat -> Verdict)

  function TickAll(log: Log, schedules: seq<Schedule>, t: Tick): Log {
    if schedules == [] then log
    else
      var n := |schedules| - 1;
      Dispatch(TickAll(log, schedules[..n], t), schedules[n], t.now, t.verdicts(n))
  }

  function Run(schedules: seq<Schedule>, ticks: seq<Tick>): Log {
    if ticks == [] then Log([], [])
    else TickAll(Run(schedules, ticks[..|ticks| - 1]), schedules, ticks[|ticks| - 1])
  }

  predicate Distinct(s: seq<Slot>) {
    forall j, k :: 0 <= j < k < |s| ==> s[j] != s[k]
  }

  /** No slot is on record twice, whether as an operation, as a miss, or as both. */
  predicate AtMostOnce(log: Log) {
    Distinct(log.created) && Distinct(log.missed) && forall slot :: slot in log.created ==> slot !in log.missed
  }

  lemma DispatchOnce(log: Log, s: Schedule, now: int, verdict: Verdict)
    requires AtMostOnce(log)
    ensures AtMostOnce(Dispatch(log, s, now, verdict))
  {}

  lemma {:induction false} TickOnce(log: Log, schedules: seq<Schedule>, t: Tick)
    requires AtMostOnce(log)
    ensures AtMostOnce(TickAll(log, schedules, t))
  {
    if schedules != [] {
      var n := |schedules| - 1;
      TickOnce(log, schedules[..n], t);
      DispatchOnce(TickAll(log, schedules[..n], t), schedules[n], t.now, t.verdicts(n));
    }
  }

  /** Over every run each occurrence gets at most one of an operation and a missed-run record. */
  lemma {:induction false} RunAtMostOnce(schedules: seq<Schedule>, ticks: seq<Tick>)
    ensures AtMostOnce(Run(schedules, ticks))
  {
    if ticks != [] {
      RunAtMostOnce(schedules, ticks[..|ticks| - 1]);
      TickOnce(Run(schedules, ticks[..|ticks| - 1]), schedules, ticks[|ticks| - 1]);
    }
  }

  /** Some schedule of the list is about this slot at this time. */
  ghost predicate Due(schedules: seq<Schedule>, now: int, slot: Slot) {
    exists k :: 0 <= k < |schedules| && schedules[k].id == slot.id && Expected(schedules[k], now) == Some(slot.at)
  }

  lemma {:induction false} TickRecords(log: Log, schedules: seq<Schedule>, t: Tick, slot: Slot)
    ensures Recorded(TickAll(log, schedules, t), slot) <==> Recorded(log, slot) || Due(schedules, t.now, slot)
  {
    if schedules != [] {
      var n := |schedules| - 1;
      TickRecords(log, schedules[..n], t, slot);
      assert Due(schedules, t.now, slot) <==>
             Due(schedules[..n], t.now, slot)
             || (schedules[n].id == slot.id && Expected(schedules[n], t.now) == Some(slot.at)) by {
        if Due(schedules, t.now, slot) {
          var k :| 0 <= k < |schedules| && schedules[k].id == slot.id && Expected(schedules[k], t.now) == Some(slot.at);
          assert k < n ==> schedules[..n][k] == schedules[k];
        }
      }
    }
  }

  ghost predicate DueAtSomeTick(schedules: seq<Schedule>, ticks: seq<Tick>, slot: Slot) {
    exists k :: 0 <= k < |ticks| && Due(schedules, ticks[k].now, slot)
  }

  lemma OneMoreTick(schedules: seq<Schedule>, ticks: seq<Tick>, t: Tick, slot: Slot)
    ensures DueAtSomeTick(schedules, ticks + [t], slot) <==>
              DueAtSomeTick(schedules, ticks, slot) || Due(schedules, t.now, slot)
  {
    var more := ticks + [t];
    if k :| 0 <= k < |more| && Due(schedules, more[k].now, slot) {
      assert k < |ticks| ==> more[k] == ticks[k];
    }
    if k :| 0 <= k < |ticks| && Due(schedules, ticks[k].now, slot) {
      assert more[k] == ticks[k];
    }
    assert more[|ticks|] == t;
  }

  lemma {:induction false} RunRecords(schedules: seq<Schedule>, ticks: seq<Tick>, slot: Slot)
    ensures Recorded(Run(schedules, ticks), slot) <==> DueAtSomeTick(schedules, ticks, slot)
  {
    if ticks != [] {
      var n := |ticks| - 1;
      RunRecords(schedules, ticks[..n], slot);
      TickRecords(Run(schedules, ticks[..n]), schedules, ticks[n], slot);
      assert ticks == ticks[..n] + [ticks[n]];
      OneMoreTick(schedules, ticks[..n], ticks[n], slot);
    }
  }

  predicate DistinctIds(schedules: seq<Schedule>) {
    forall j, k :: 0 <= j < k < |schedules| ==> schedules[j].id != schedules[k].id
  }

  /**
    A time ends up on record for a schedule exactly when it is one of its occurrences and
    some tick fell between it and the next one.
   */
  lemma RecordedExactly(schedules: seq<Schedule>, ticks: seq<Tick>, i: nat, o: int)
    requires i < |schedules| && DistinctIds(schedules) && schedules[i].Valid()
    ensures Recorded(Run(schedules, ticks), Slot(schedules[i].id, o)) <==>
              Occurrence(schedules[i], o)
              && exists k :: 0 <= k < |ticks| && o <= ticks[k].now < o + Period(schedules[i])
  {
    var s, slot := schedules[i], Slot(schedules[i].id, o);
    RunRecords(schedules, ticks, slot);
    forall now: int ensures Due(schedules, now, slot) <==> Occurrence(s, o) && o <= now < o + Period(s) {
      ExpectedIsLatest(s, now, o);
      if Due(schedules, now, slot) {
        var k :| 0 <= k < |schedules| && schedules[k].id == slot.id && Expected(schedules[k], now) == Some(o);
        assert k == i;
      }
    }
    if k :| 0 <= k < |ticks| && o <= ticks[k].now < o + Period(s) && Occurrence(s, o) {
      assert Due(schedules, ticks[k].now, slot);
    }
  }

  /** Ticks at most one period apart miss nothing between them. */
  lemma NoGaps(schedules: seq<Schedule>, ticks: seq<Tick>, i: nat, k: nat, o: int)
    requires i < |schedules| && DistinctIds(schedules) && schedules[i].Valid()
    requires k + 1 < |ticks| && ticks[k + 1].now - ticks[k].now <= Period(schedules[i])
    requires Occurrence(schedules[i], o) && ticks[k].now < o <= ticks[k + 1].now
    ensures Recorded(Run(schedules, ticks), Slot(schedules[i].id, o))
  {
    RecordedExactly(schedules, ticks, i, o);
  }

  // ----- Which of the two records -----

  /** The times and the period of each kind of schedule, in seconds. */
  lemma OccurrencesInWords(s: Schedule, o: int)
    ensures s.kind.TimeOfDay? ==>
              && Period(s) == 86400
              && (Occurrence(s, o) <==> s.lastChangedAt < o && o % 86400 == s.kind.hour * 3600 + s.kind.minute * 60)
    ensures s.kind.EveryNDays? ==>
              && Period(s) == (if s.kind.days < 1 then 86400 else s.kind.days * 86400)
              && (Occurrence(s, o) <==> s.lastChangedAt < o && (o - s.lastChangedAt) % Period(s) == 0)
    ensures s.kind.Unknown? ==> !Occurrence(s, o)
  {}

  /** An operation is created only for a schedule with a task, in an idle world, that is not refused. */
  predicate Creates(s: Schedule, verdict: Verdict) {
    (s.task == BackupTask || s.task == CleanupTask) && verdict == Accepted
  }

  /** A record is about other schedules' slots or this one's. */
  lemma {:induction false} OthersUntouched(log: Log, schedules: seq<Schedule>, t: Tick, slot: Slot)
    requires forall k :: 0 <= k < |schedules| ==> schedules[k].id != slot.id
    ensures slot in TickAll(log, schedules, t).created <==> slot in log.created
    ensures slot in TickAll(log, schedules, t).missed <==> slot in log.missed
  {
    if schedules != [] {
      OthersUntouched(log, schedules[..|schedules| - 1], t, slot);
    }
  }

  /** What one tick does about one time of one schedule. */
  predicate Decides(log: Log, log': Log, s: Schedule, now: int, verdict: Verdict, o: int) {
    var slot := Slot(s.id, o);
    var newly := slot !in log.created && slot !in log.missed && Expected(s, now) == Some(o);
    && (slot in log'.created <==> slot in log.created || (newly && Creates(s, verdict)))
    && (slot in log'.missed <==> slot in log.missed || (newly && !Creates(s, verdict)))
  }

  lemma {:induction false} TickDecides(log: Log, schedules: seq<Schedule>, t: Tick, i: nat, o: int)
    requires i < |schedules| && DistinctIds(schedules)
    ensures Decides(log, TickAll(log, schedules, t), schedules[i], t.now, t.verdicts(i), o)
    decreases |schedules|
  {
    var n := |schedules| - 1;
    if i < n {
      TickDecides(log, schedules[..n], t, i, o);
    } else {
      OthersUntouched(log, schedules[..n], t, Slot(schedules[i].id, o));
    }
  }

  /** The k-th tick is the first that is about this time. */
  predicate FirstDue(s: Schedule, ticks: seq<Tick>, o: int, k: nat) {
    && k < |ticks| && Expected(s, ticks[k].now) == Some(o)
    && forall j :: 0 <= j < k ==> Expected(s, ticks[j].now) != Some(o)
  }

  lemma FirstDueLater(s: Schedule, ticks: seq<Tick>, t: Tick, o: int, k: nat)
    ensures k < |ticks| ==> (FirstDue(s, ticks + [t], o, k) <==> FirstDue(s, ticks, o, k))
    ensures FirstDue(s, ticks + [t], o, |ticks|) <==>
              Expected(s, t.now) == Some(o) && forall j :: 0 <= j < |ticks| ==> !FirstDue(s, ticks, o, j)
  {
    var more := ticks + [t];
    assert more[|ticks|] == t && forall j :: 0 <= j < |ticks| ==> more[j] == ticks[j];
    if exists j :: 0 <= j < |ticks| && Expected(s, ticks[j].now) == Some(o) {
      FirstExists(s, ticks, o);
    }
  }

  lemma {:induction false} FirstExists(s: Schedule, ticks: seq<Tick>, o: int)
    requires exists j :: 0 <= j < |ticks| && Expected(s, ticks[j].now) == Some(o)
    ensures exists j :: 0 <= j < |ticks| && FirstDue(s, ticks, o, j)
  {
    var n := |ticks| - 1;
    if exists j :: 0 <= j < n && Expected(s, ticks[j].now) == Some(o) {
      var j :| 0 <= j < n && Expected(s, ticks[j].now) == Some(o);
      assert ticks[..n][j] == ticks[j];
      FirstExists(s, ticks[..n], o);
      var k :| 0 <= k < n && FirstDue(s, ticks[..n], o, k);
      assert FirstDue(s, ticks, o, k);
    } else {
      assert FirstDue(s, ticks, o, n);
    }
  }

  /** The first tick about a time found what it takes to create an operation, or did not. */
  ghost predicate FirstSays(s: Schedule, ticks: seq<Tick>, o: int, i: nat, creates: bool) {
    exists k: nat :: FirstDue(s, ticks, o, k) && Creates(s, ticks[k].verdicts(i)) == creates
  }

  lemma SaysThen(s: Schedule, ticks: seq<Tick>, t: Tick, o: int, i: nat, creates: bool)
    ensures FirstSays(s, ticks + [t], o, i, creates) <==>
              || FirstSays(s, ticks, o, i, creates)
              || (Expected(s, t.now) == Some(o) && Creates(s, t.verdicts(i)) == creates
                  && !FirstSays(s, ticks, o, i, true) && !FirstSays(s, ticks, o, i, false))
  {
    var more := ticks + [t];
    assert more[|ticks|] == t && forall j :: 0 <= j < |ticks| ==> more[j] == ticks[j];
    FirstDueLater(s, ticks, t, o, |ticks|);
    forall k: nat | k < |ticks| ensures FirstDue(s, more, o, k) <==> FirstDue(s, ticks, o, k) {
      FirstDueLater(s, ticks, t, o, k);
    }
    if k: nat :| FirstDue(s, ticks, o, k) && Creates(s, ticks[k].verdicts(i)) == creates {
      assert FirstDue(s, more, o, k) && Creates(s, more[k].verdicts(i)) == creates;
    }
    if k: nat :| FirstDue(s, ticks, o, k) {
      assert FirstSays(s, ticks, o, i, Creates(s, ticks[k].verdicts(i)));
    }
  }

  /** The first tick that was about a time decided which record it got. */
  lemma {:induction false} FirstTickDecides(schedules: seq<Schedule>, ticks: seq<Tick>, i: nat, o: int)
    requires i < |schedules| && DistinctIds(schedules)
    ensures var s, slot, log := schedules[i], Slot(schedules[i].id, o), Run(schedules, ticks);
            && (slot in log.created <==> FirstSays(s, ticks, o, i, true))
            && (slot in log.missed <==> FirstSays(s, ticks, o, i, false))
  {
    if ticks != [] {
      var n := |ticks| - 1;
      FirstTickDecides(schedules, ticks[..n], i, o);
      TickDecides(Run(schedules, ticks[..n]), schedules, ticks[n], i, o);
      assert ticks == ticks[..n] + [ticks[n]];
      SaysThen(schedules[i], ticks[..n], ticks[n], o, i, true);
      SaysThen(schedules[i], ticks[..n], ticks[n], o, i, false);
    }
  }

  lemma FirstDueIsFirstIn(s: Schedule, ticks: seq<Tick>, o: int, k: nat)
    requires s.Valid() && Occurrence(s, o)
    ensures FirstDue(s, ticks, o, k) <==> FirstIn(ticks, o, o + Period(s), k)
  {
    forall j | 0 <= j < |ticks|
      ensures Expected(s, ticks[j].now) == Some(o) <==> o <= ticks[j].now < o + Period(s)
    {
      ExpectedIsLatest(s, ticks[j].now, o);
    }
  }

  /**
    Over every run, an occurrence has an operation if and only if the first tick in its period
    found a schedule with a task, an idle world and no refusal; and a missed-run record if and
    only if that first tick found no task, a busy world or a refusal.
   */
  lemma CreatedOrMissedExactly(schedules: seq<Schedule>, ticks: seq<Tick>, i: nat, o: int)
    requires i < |schedules| && DistinctIds(schedules) && schedules[i].Valid() && Occurrence(schedules[i], o)
    ensures var s, slot := schedules[i], Slot(schedules[i].id, o);
            && (slot in Run(schedules, ticks).created <==>
                  exists k: nat :: FirstIn(ticks, o, o + Period(s), k)
                                   && s.task != NoTask && ticks[k].verdicts(i) == Accepted)
            && (slot in Run(schedules, ticks).missed <==>
                  exists k: nat :: FirstIn(ticks, o, o + Period(s), k)
                                   && (s.task == NoTask
                                       || ticks[k].verdicts(i) == Busy || ticks[k].verdicts(i) == Refused))
  {
    FirstTickDecides(schedules, ticks, i, o);
    SaysInPeriod(schedules[i], ticks, o, i, o + Period(schedules[i]));
  }

  lemma SaysInPeriod(s: Schedule, ticks: seq<Tick>, o: int, i: nat, until: int)
    requires s.Valid() && Occurrence(s, o) && until == o + Period(s)
    ensures FirstSays(s, ticks, o, i, true) <==>
              exists k: nat :: FirstIn(ticks, o, until, k) && s.task != NoTask && ticks[k].verdicts(i) == Accepted
    ensures FirstSays(s, ticks, o, i, false) <==>
              exists k: nat :: FirstIn(ticks, o, until, k)
                               && (s.task == NoTask || ticks[k].verdicts(i) == Busy || ticks[k].verdicts(i) == Refused)
  {
    forall k: nat ensures FirstDue(s, ticks, o, k) <==> FirstIn(ticks, o, until, k) {
      FirstDueIsFirstIn(s, ticks, o, k);
    }
    if k: nat :| FirstIn(ticks, o, until, k) {
      assert FirstDue(s, ticks, o, k);
    }
  }

  /** The k-th tick is the first to fall in a stretch of time. */
  predicate FirstIn(ticks: seq<Tick>, from: int, until: int, k: nat) {
    && k < |ticks| && from <= ticks[k].now < until
    && forall j :: 0 <= j < k ==> !(from <= ticks[j].now < until)
  }

  /** The schedules that have an occurrence to look at. */
  function DueSet(schedules: seq<Schedule>, now: int): set<nat> {
    set k: nat | k < |schedules| && Expected(schedules[k], now).Some?
  }

  lemma OneMoreDue(schedules: seq<Schedule>, k: nat, now: int)
    requires k < |schedules|
    ensures |DueSet(schedules[..k + 1], now)|
            == |DueSet(schedules[..k], now)| + if Expected(schedules[k], now).Some? then 1 else 0
  {
    var before, after := DueSet(schedules[..k], now), DueSet(schedules[..k + 1], now);
    if Expected(schedules[k], now).Some? {
      assert after == before + {k};
    } else {
      assert after == before;
    }
  }

  // ----- The service -----

  class SchedulerService {
    var created: seq<Slot>
    var missed: seq<Slot>

    ghost function State(): Log
      reads this
    {
      Log(created, missed)
    }

    constructor ()
      ensures State() == Log([], [])
    {
      created, missed := [], [];
    }

    /** Records a miss unless one is already on record; answers how many rows it added. */
    method RecordMissed(slot: Slot) returns (added: nat)
      modifies this`missed
      ensures missed == if slot in old(missed) then old(missed) else old(missed) + [slot]
      ensures added == |missed| - |old(missed)|
    {
      if slot in missed {
        return 0;
      }
      missed := missed + [slot];
      return 1;
    }

    /** One tick over all schedules, counting what was due, dispatched and missed. */
    method RunTick(schedules: seq<Schedule>, t: Tick) returns (due: nat, dispatched: nat, missedRuns: nat)
      modifies this
      ensures State() == TickAll(old(State()), schedules, t)
      ensures dispatched == |created| - |old(created)| && missedRuns == |missed| - |old(missed)|
      ensures dispatched + missedRuns <= due == |DueSet(schedules, t.now)|
    {
      due, dispatched, missedRuns := 0, 0, 0;
      var k := 0;
      while k < |schedules|
        invariant 0 <= k <= |schedules|
        invariant State() == TickAll(old(State()), schedules[..k], t)
        invariant dispatched == |created| - |old(created)| && missedRuns == |missed| - |old(missed)|
        invariant dispatched + missedRuns <= due == |DueSet(schedules[..k], t.now)|
      {
        var s := schedules[k];
        assert schedules[..k + 1][..k] == schedules[..k];
        OneMoreDue(schedules, k, t.now);
        k := k + 1;
        var expected := Expected(s, t.now);
        if expected.None? {
          continue;
        }
        due := due + 1;
        var slot := Slot(s.id, expected.value);
        if slot in missed || slot in created {
          continue;
        }
        if s.task.NoTask? {
          var added := RecordMissed(slot);
          missedRuns := missedRuns + added;
          continue;
        }
        if t.verdicts(k - 1).Busy? {
          var added := RecordMissed(slot);
          missedRuns := missedRuns + added;
          continue;
        }
        if t.verdicts(k - 1).Refused? {
          var added := RecordMissed(slot);
          missedRuns := missedRuns + added;
          continue;
        }
        created := created + [slot];
        dispatched := dispatched + 1;
      }
      assert schedules[..k] == schedules;
    }
  }
}
