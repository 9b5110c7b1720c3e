/**
  Offsite uploads: the bounded retry loop and the daily transfer cap.

  Every reading of the clock during a dispatch is one value of `clock`, in order: two for the
  cap checks, then one before and one after each upload.  An attempt carries the size of the
  artifact it uploads.
 */
module Sync {
  import opened Wrappers

  const DAILY_CAP: nat := 50 * 1024 * 1024 * 1024
  const DAY: int := 24 * 60 * 60
  const RETRIES: nat := 3

  datatype Outcome = Succeeded | FailedTransient | FailedPermanent

  datatype Attempt = Attempt(number: nat, startedAt: int, finishedAt: int, outcome: Outcome, size: nat)

  /** One dispatch: what is uploaded, what the clock says, how each upload ends. */
  datatype Job = Job(size: nat, clock: nat -> int, outcomes: nat -> Outcome)

  function DayOf(t: int): int { t / DAY }

  /** Bytes of uploads that finished on a UTC day. */
  function BytesOn(log: seq<Attempt>, day: int): nat {
    if log == [] then 0
    else
      var a := log[|log| - 1];
      BytesOn(log[..|log| - 1], day) + if a.outcome.Succeeded? && DayOf(a.finishedAt) == day then a.size else 0
  }

  lemma {:induction false} BytesOnConcat(a: seq<Attempt>, b: seq<Attempt>, day: int)
    ensures BytesOn(a + b, day) == BytesOn(a, day) + BytesOn(b, day)
  {
    if b == [] {
      assert a + b == a;
    } else {
      BytesOnConcat(a, b[..|b| - 1], day);
      assert (a + b)[..|a + b| - 1] == a + b[..|b| - 1];
    }
  }

  lemma {:induction false} NothingBefore(log: seq<Attempt>, day: int)
    requires forall k :: 0 <= k < |log| ==> DayOf(log[k].finishedAt) < day
    ensures BytesOn(log, day) == 0
  {
    if log != [] {
      NothingBefore(log[..|log| - 1], day);
    }
  }

  // ----- The retry loop -----

  function AttemptAt(j: Job, number: nat): Attempt
    requires number >= 1
  {
    Attempt(number, j.clock(2 * number), j.clock(2 * number + 1), j.outcomes(number), j.size)
  }

  /** The attempts from `number` on: another one only after a transient failure. */
  function AttemptsFrom(j: Job, number: nat): seq<Attempt>
    requires number >= 1
    decreases RETRIES + 1 - number
  {
    if number > RETRIES then []
    else if j.outcomes(number).FailedTransient? then [AttemptAt(j, number)] + AttemptsFrom(j, number + 1)
    else [AttemptAt(j, number)]
  }

  /** At most three attempts, numbered from one; every one but the last failed transiently. */
  lemma {:induction false} RetryShape(j: Job, number: nat)
    requires 1 <= number <= RETRIES + 1
    ensures var out := AttemptsFrom(j, number);
            && |out| <= RETRIES + 1 - number
            && (forall k :: 0 <= k < |out| ==> out[k] == AttemptAt(j, number + k))
            && (forall k :: 0 <= k < |out| - 1 ==> out[k].outcome.FailedTransient?)
            && (|out| < RETRIES + 1 - number ==> out != [] && !out[|out| - 1].outcome.FailedTransient?)
    decreases RETRIES + 1 - number
  {}

  /** A dispatch uploads its artifact at most once, whenever it finishes. */
  lemma {:induction false} OneUpload(j: Job, number: nat, day: int)
    requires 1 <= number <= RETRIES + 1
    ensures BytesOn(AttemptsFrom(j, number), day) == 0
            || (BytesOn(AttemptsFrom(j, number), day) == j.size
                && exists n :: number <= n <= RETRIES && DayOf(j.clock(2 * n + 1)) == day)
    decreases RETRIES + 1 - number
  {
    if number <= RETRIES {
      var head := [AttemptAt(j, number)];
      assert head[..0] == [];
      if j.outcomes(number).FailedTransient? {
        OneUpload(j, number + 1, day);
        BytesOnConcat(head, AttemptsFrom(j, number + 1), day);
      }
    }
  }

  // ----- The cap -----

  datatype SyncError = CapExceeded

  /** Refused when the cap is reached, or would be passed by this artifact; otherwise uploaded. */
  predicate Refused(log: seq<Attempt>, size: nat, first: int, second: int) {
    BytesOn(log, DayOf(first)) >= DAILY_CAP || BytesOn(log, DayOf(second)) + size > DAILY_CAP
  }

  predicate Refuses(log: seq<Attempt>, j: Job) {
    Refused(log, j.size, j.clock(0), j.clock(1))
  }

  function Dispatch(log: seq<Attempt>, j: Job): seq<Attempt> {
    if Refuses(log, j) then log else log + AttemptsFrom(j, 1)
  }

  function Run(jobs: seq<Job>): seq<Attempt> {
    if jobs == [] then [] else Dispatch(Run(jobs[..|jobs| - 1]), jobs[|jobs| - 1])
  }

  const LAST_READING: nat := 2 * RETRIES + 1

  /** The clock never goes back during a dispatch. */
  ghost predicate Steady(j: Job) {
    forall m: nat, n: nat :: m <= n <= LAST_READING ==> j.clock(m) <= j.clock(n)
  }

  /** Dispatches follow one another: each starts no earlier than the one before it can have ended. */
  ghost predicate Sequential(jobs: seq<Job>) {
    && (forall k :: 0 <= k < |jobs| ==> Steady(jobs[k]))
    && (forall k :: 0 < k < |jobs| ==> jobs[k - 1].clock(LAST_READING) <= jobs[k].clock(0))
  }

  predicate FinishedBy(log: seq<Attempt>, t: int) {
    forall k :: 0 <= k < |log| ==> log[k].finishedAt <= t
  }

  predicate WithinCap(log: seq<Attempt>, day: int) {
    BytesOn(log, day) <= DAILY_CAP
  }

  /** One dispatch keeps every day within the cap, also when it ends on a later day than it began. */
  lemma DispatchWithinCap(log: seq<Attempt>, j: Job, day: int)
    requires Steady(j) && FinishedBy(log, j.clock(0)) && WithinCap(log, day)
    ensures WithinCap(Dispatch(log, j), day)
  {
    if Refuses(log, j) {
      return;
    }
    BytesOnConcat(log, AttemptsFrom(j, 1), day);
    OneUpload(j, 1, day);
    if BytesOn(AttemptsFrom(j, 1), day) != 0 {
      var n :| 1 <= n <= RETRIES && DayOf(j.clock(2 * n + 1)) == day;
      UploadFits(log, j, n);
    }
  }

  /** An admitted upload fits the day it finishes on: the day of the check, or an empty later one. */
  lemma UploadFits(log: seq<Attempt>, j: Job, n: nat)
    requires Steady(j) && FinishedBy(log, j.clock(0)) && 1 <= n <= RETRIES
    requires BytesOn(log, DayOf(j.clock(1))) + j.size <= DAILY_CAP
    ensures BytesOn(log, DayOf(j.clock(2 * n + 1))) + j.size <= DAILY_CAP
  {}

  lemma DispatchFinishes(log: seq<Attempt>, j: Job)
    requires Steady(j) && FinishedBy(log, j.clock(0))
    ensures FinishedBy(Dispatch(log, j), j.clock(LAST_READING))
  {}

  /** Over any sequence of dispatches, no day's finished uploads exceed the daily cap. */
  lemma {:induction false} EveryDayWithinCap(jobs: seq<Job>, day: int)
    requires Sequential(jobs)
    ensures WithinCap(Run(jobs), day)
    ensures jobs != [] ==> FinishedBy(Run(jobs), jobs[|jobs| - 1].clock(LAST_READING))
  {
    if jobs != [] {
      var before := jobs[..|jobs| - 1];
      var j := jobs[|jobs| - 1];
      EveryDayWithinCap(before, day);
      assert Steady(j);
      if before != [] {
        assert FinishedBy(Run(before), j.clock(0));
      }
      DispatchWithinCap(Run(before), j, day);
      DispatchFinishes(Run(before), j);
    }
  }

  // ----- Overlapping dispatches -----

  /** A dispatch that has passed its checks: it makes attempt `number` next, unless it is over. */
  datatype Flight = Flight(size: nat, number: nat, open: bool)

  datatype Traffic = Traffic(log: seq<Attempt>, flights: seq<Flight>)

  /** The two checks of a dispatch, or the end of one attempt of the k-th admitted dispatch. */
  datatype Event =
    | Begin(size: nat, first: int, second: int)
    | Upload(k: nat, startedAt: int, finishedAt: int, outcome: Outcome)

  function NextFlight(f: Flight, outcome: Outcome): Flight {
    if outcome.FailedTransient? && f.number < RETRIES then f.(number := f.number + 1) else f.(open := false)
  }

  predicate Flies(s: Traffic, k: nat) { k < |s.flights| && s.flights[k].open }

  function Step(s: Traffic, e: Event): Traffic {
    match e
    case Begin(size, first, second) =>
      if Refused(s.log, size, first, second) then s else s.(flights := s.flights + [Flight(size, 1, true)])
    case Upload(k, startedAt, finishedAt, outcome) =>
      if !Flies(s, k) then s
      else
        var f := s.flights[k];
        Traffic(s.log + [Attempt(f.number, startedAt, finishedAt, outcome, f.size)],
                s.flights[k := NextFlight(f, outcome)])
  }

  function Fly(s: Traffic, es: seq<Event>): Traffic
    decreases |es|
  {
    if es == [] then s else Fly(Step(s, es[0]), es[1..])
  }

  function Moment(e: Event): int { if e.Begin? then e.second else e.finishedAt }

  /** Events follow one another in time, from `now` on. */
  predicate InTime(now: int, es: seq<Event>)
    decreases |es|
  {
    es == [] || (now <= Moment(es[0]) && (es[0].Begin? ==> now <= es[0].first <= es[0].second)
                 && InTime(Moment(es[0]), es[1..]))
  }

  predicate OnlyUploads(es: seq<Event>) {
    forall i :: 0 <= i < |es| ==> es[i].Upload?
  }

  /** However what is in flight ends, and whenever from `now` on, no day exceeds the cap. */
  ghost predicate Safe(s: Traffic, now: int) {
    forall es, day :: InTime(now, es) && OnlyUploads(es) ==> WithinCap(Fly(s, es).log, day)
  }

  function Weight(f: Flight): nat { if f.open then f.size else 0 }

  /** Bytes that admitted dispatches may still add. */
  function InFlight(flights: seq<Flight>): nat {
    if flights == [] then 0 else InFlight(flights[..|flights| - 1]) + Weight(flights[|flights| - 1])
  }

  function Exposure(s: Traffic, day: int): nat { BytesOn(s.log, day) + InFlight(s.flights) }

  /** What a dispatch would have to check: recorded bytes, bytes in flight and its own fit the cap. */
  predicate HasRoom(s: Traffic, e: Event)
    requires e.Begin?
  {
    Exposure(s, DayOf(e.second)) + e.size <= DAILY_CAP
  }

  predicate Admitted(s: Traffic, e: Event) {
    e.Begin? && !Refused(s.log, e.size, e.first, e.second)
  }

  lemma {:induction false} WeightChanged(flights: seq<Flight>, k: nat, f: Flight)
    requires k < |flights|
    ensures InFlight(flights[k := f]) + Weight(flights[k]) == InFlight(flights) + Weight(f)
  {
    var n := |flights| - 1;
    if k < n {
      WeightChanged(flights[..n], k, f);
      assert flights[k := f][..n] == flights[..n][k := f];
    } else {
      assert flights[k := f][..n] == flights[..n];
    }
  }

  lemma AttemptAdded(log: seq<Attempt>, a: Attempt, day: int)
    ensures BytesOn(log + [a], day)
            == BytesOn(log, day) + if a.outcome.Succeeded? && DayOf(a.finishedAt) == day then a.size else 0
  {
    assert (log + [a])[..|log|] == log;
  }

  /** Later days start empty, so exposure only shrinks as time goes by. */
  lemma ExposedLater(s: Traffic, now: int, t: int)
    requires FinishedBy(s.log, now) && now <= t
    ensures Exposure(s, DayOf(t)) <= Exposure(s, DayOf(now))
  {
    if DayOf(now) < DayOf(t) {
      NothingBefore(s.log, DayOf(t));
    }
  }

  /** An attempt adds to its day at most what it takes out of the air. */
  lemma UploadBounded(s: Traffic, now: int, e: Event, day: int)
    requires e.Upload? && now <= e.finishedAt && FinishedBy(s.log, now)
    requires WithinCap(s.log, day) && Exposure(s, DayOf(now)) <= DAILY_CAP
    ensures FinishedBy(Step(s, e).log, e.finishedAt)
    ensures WithinCap(Step(s, e).log, day) && Exposure(Step(s, e), DayOf(e.finishedAt)) <= DAILY_CAP
  {
    ExposedLater(s, now, e.finishedAt);
    if Flies(s, e.k) {
      var f := s.flights[e.k];
      var a := Attempt(f.number, e.startedAt, e.finishedAt, e.outcome, f.size);
      WeightChanged(s.flights, e.k, NextFlight(f, e.outcome));
      AttemptAdded(s.log, a, day);
      AttemptAdded(s.log, a, DayOf(e.finishedAt));
    }
  }

  lemma {:induction false} UploadsBounded(s: Traffic, now: int, es: seq<Event>, day: int)
    requires InTime(now, es) && OnlyUploads(es) && FinishedBy(s.log, now)
    requires WithinCap(s.log, day) && Exposure(s, DayOf(now)) <= DAILY_CAP
    ensures WithinCap(Fly(s, es).log, day)
    decreases |es|
  {
    if es != [] {
      UploadBounded(s, now, es[0], day);
      UploadsBounded(Step(s, es[0]), es[0].finishedAt, es[1..], day);
    }
  }

  /** Every dispatch from the k-th on succeeds at time t. */
  function Landing(k: nat, n: nat, t: int): (es: seq<Event>)
    requires k <= n
    ensures |es| == n - k && OnlyUploads(es)
    decreases n - k
  {
    if k == n then [] else [Upload(k, t, t, Succeeded)] + Landing(k + 1, n, t)
  }

  lemma {:induction false} LandingInTime(k: nat, n: nat, t: int)
    requires k <= n
    ensures InTime(t, Landing(k, n, t))
    decreases n - k
  {
    if k < n {
      LandingInTime(k + 1, n, t);
    }
  }

  /** When everything in flight lands on one day, that day is charged its whole exposure. */
  lemma {:induction false} AllLand(s: Traffic, k: nat, t: int)
    requires k <= |s.flights| && InFlight(s.flights[..k]) == 0
    ensures BytesOn(Fly(s, Landing(k, |s.flights|, t)).log, DayOf(t)) == Exposure(s, DayOf(t))
    decreases |s.flights| - k
  {
    if k == |s.flights| {
      assert s.flights[..k] == s.flights;
    } else {
      var f := s.flights[k];
      var s' := Step(s, Upload(k, t, t, Succeeded));
      if f.open {
        WeightChanged(s.flights, k, NextFlight(f, Succeeded));
        AttemptAdded(s.log, Attempt(f.number, t, t, Succeeded, f.size), DayOf(t));
      }
      assert s'.flights[..k + 1][..k] == s.flights[..k];
      AllLand(s', k + 1, t);
    }
  }

  /** Whatever is in flight is harmless exactly when it fits the current day together with what is recorded. */
  lemma SafeExactly(s: Traffic, now: int)
    requires FinishedBy(s.log, now)
    ensures Safe(s, now) <==> (forall day :: WithinCap(s.log, day)) && Exposure(s, DayOf(now)) <= DAILY_CAP
  {
    if Safe(s, now) {
      forall day ensures WithinCap(s.log, day) {
        assert InTime(now, []) && OnlyUploads([]) && Fly(s, []) == s;
      }
      LandingInTime(0, |s.flights|, now);
      AllLand(s, 0, now);
      assert WithinCap(Fly(s, Landing(0, |s.flights|, now)).log, DayOf(now));
    }
    if (forall day :: WithinCap(s.log, day)) && Exposure(s, DayOf(now)) <= DAILY_CAP {
      forall es, day | InTime(now, es) && OnlyUploads(es) ensures WithinCap(Fly(s, es).log, day) {
        UploadsBounded(s, now, es, day);
      }
    }
  }

  lemma FlightAdded(flights: seq<Flight>, f: Flight)
    ensures InFlight(flights + [f]) == InFlight(flights) + Weight(f)
  {
    assert (flights + [f])[..|flights|] == flights;
  }

  /**
    A dispatch the code admits beside others keeps the cap safe exactly when recorded bytes,
    bytes in flight and its own bytes together fit; the code leaves out the bytes in flight.
   */
  lemma AdmissionExactly(s: Traffic, now: int, e: Event)
    requires Safe(s, now) && FinishedBy(s.log, now)
    requires Admitted(s, e) && now <= e.first <= e.second
    ensures Safe(Step(s, e), e.second) <==> HasRoom(s, e)
  {
    SafeExactly(s, now);
    SafeExactly(Step(s, e), e.second);
    FlightAdded(s.flights, Flight(e.size, 1, true));
  }

  /** With nothing in flight the code's own check is the right one. */
  lemma AloneHasRoom(s: Traffic, e: Event)
    requires Admitted(s, e) && InFlight(s.flights) == 0
    ensures HasRoom(s, e)
  {}

  /** Along a run, every moment is safe. */
  ghost predicate AlwaysSafe(s: Traffic, now: int, es: seq<Event>)
    decreases |es|
  {
    Safe(s, now) && (es != [] ==> AlwaysSafe(Step(s, es[0]), Moment(es[0]), es[1..]))
  }

  /** Along a run, every dispatch the code admits has room. */
  predicate AllHaveRoom(s: Traffic, es: seq<Event>)
    decreases |es|
  {
    es != [] ==> (Admitted(s, es[0]) ==> HasRoom(s, es[0])) && AllHaveRoom(Step(s, es[0]), es[1..])
  }

  lemma UnlessAdmitted(s: Traffic, now: int, e: Event)
    requires Safe(s, now) && FinishedBy(s.log, now) && InTime(now, [e])
    ensures FinishedBy(Step(s, e).log, Moment(e))
    ensures !Admitted(s, e) ==> Safe(Step(s, e), Moment(e))
  {
    SafeExactly(s, now);
    SafeExactly(Step(s, e), Moment(e));
    ExposedLater(s, now, Moment(e));
    if e.Upload? {
      forall day ensures WithinCap(Step(s, e).log, day) && Exposure(Step(s, e), DayOf(e.finishedAt)) <= DAILY_CAP {
        UploadBounded(s, now, e, day);
      }
    }
  }

  /** However dispatches overlap: a run is safe throughout if and only if every one it admits has room. */
  lemma {:induction false} OverlapExactly(s: Traffic, now: int, es: seq<Event>)
    requires Safe(s, now) && FinishedBy(s.log, now) && InTime(now, es)
    ensures AlwaysSafe(s, now, es) <==> AllHaveRoom(s, es)
    decreases |es|
  {
    if es != [] {
      var s' := Step(s, es[0]);
      assert InTime(now, [es[0]]);
      UnlessAdmitted(s, now, es[0]);
      if Admitted(s, es[0]) {
        AdmissionExactly(s, now, es[0]);
      }
      if Safe(s', Moment(es[0])) {
        OverlapExactly(s', Moment(es[0]), es[1..]);
      }
    }
  }

  lemma EmptyIsSafe(now: int)
    ensures Safe(Traffic([], []), now)
  {
    SafeExactly(Traffic([], []), now);
  }

  /** Two dispatches of more than half the cap each, admitted side by side on an empty day, can exceed it together. */
  lemma OverlapExceedsCap(size: nat, t: int)
    requires size <= DAILY_CAP < 2 * size
    ensures var twice := [Begin(size, t, t), Begin(size, t, t)];
            && |Fly(Traffic([], []), twice).flights| == 2
            && exists es, day :: InTime(t, es) && OnlyUploads(es)
                                 && !WithinCap(Fly(Fly(Traffic([], []), twice), es).log, day)
  {
    var e := Begin(size, t, t);
    var s := Traffic([], []);
    var one := Step(s, e);
    EmptyIsSafe(t);
    AdmissionExactly(s, t, e);
    assert one.flights == [Flight(size, 1, true)] && one.flights[..0] == [];
    AdmissionExactly(one, t, e);
    assert Fly(s, [e, e]) == Fly(one, [e]) == Fly(Step(one, e), []);
  }

  /** The attempts of one dispatch, from `number` on, as events of the k-th flight. */
  function UploadsOf(j: Job, k: nat, number: nat): seq<Event>
    requires number >= 1
    decreases RETRIES + 1 - number
  {
    if number > RETRIES then []
    else [Upload(k, j.clock(2 * number), j.clock(2 * number + 1), j.outcomes(number))] + UploadsOf(j, k, number + 1)
  }

  /** A dispatch nobody interrupts is its checks followed by its attempts. */
  lemma DispatchIsRun(s: Traffic, j: Job)
    ensures Fly(s, [Begin(j.size, j.clock(0), j.clock(1))] + UploadsOf(j, |s.flights|, 1)).log == Dispatch(s.log, j)
  {
    var k := |s.flights|;
    var s' := Step(s, Begin(j.size, j.clock(0), j.clock(1)));
    if Refuses(s.log, j) {
      ClosedStays(s', k, j, 1);
    } else {
      UploadsRun(s', k, j, 1);
    }
  }

  lemma {:induction false} ClosedStays(s: Traffic, k: nat, j: Job, number: nat)
    requires !Flies(s, k) && number >= 1
    ensures Fly(s, UploadsOf(j, k, number)) == s
    decreases RETRIES + 1 - number
  {
    if number <= RETRIES {
      ClosedStays(s, k, j, number + 1);
    }
  }

  lemma {:induction false} UploadsRun(s: Traffic, k: nat, j: Job, number: nat)
    requires 1 <= number <= RETRIES && k < |s.flights| && s.flights[k] == Flight(j.size, number, true)
    ensures Fly(s, UploadsOf(j, k, number)).log == s.log + AttemptsFrom(j, number)
    decreases RETRIES + 1 - number
  {
    var head := UploadsOf(j, k, number)[0];
    var s' := Step(s, head);
    assert s'.log == s.log + [AttemptAt(j, number)];
    if s'.flights[k].open {
      UploadsRun(s', k, j, number + 1);
      assert s.log + AttemptsFrom(j, number) == s'.log + AttemptsFrom(j, number + 1);
    } else {
      ClosedStays(s', k, j, number + 1);
      if j.outcomes(number).FailedTransient? {
        assert AttemptsFrom(j, number + 1) == [];
      }
    }
  }

  // ----- The service -----

  class SyncService {
    var attempts: seq<Attempt>

    constructor ()
      ensures attempts == []
    {
      attempts := [];
    }

    method DispatchSync(j: Job) returns (r: Result<bool, SyncError>)
      modifies this
      ensures attempts == Dispatch(old(attempts), j)
      ensures r.Err? <==> Refuses(old(attempts), j)
      ensures r.Ok? ==> |attempts| > |old(attempts)| && (r.value <==> attempts[|attempts| - 1].outcome.Succeeded?)
    {
      if BytesOn(attempts, DayOf(j.clock(0))) >= DAILY_CAP {
        return Err(CapExceeded);
      }
      if BytesOn(attempts, DayOf(j.clock(1))) + j.size > DAILY_CAP {
        return Err(CapExceeded);
      }
      var succeeded := false;
      var number := 1;
      var retry := true;
      while number <= RETRIES && retry
        invariant 1 <= number <= RETRIES + 1
        invariant attempts + (if retry then AttemptsFrom(j, number) else []) == old(attempts) + AttemptsFrom(j, 1)
        invariant number > 1 ==>
                    |attempts| > |old(attempts)| && (succeeded <==> attempts[|attempts| - 1].outcome.Succeeded?)
        invariant number == 1 ==> retry
        decreases RETRIES + 1 - number
      {
        var startedAt := j.clock(2 * number);
        var outcome := j.outcomes(number);
        succeeded := outcome.Succeeded?;
        var finishedAt := j.clock(2 * number + 1);
        attempts := attempts + [Attempt(number, startedAt, finishedAt, outcome, j.size)];
        retry := !(succeeded || outcome.FailedPermanent?);
        number := number + 1;
      }
      return Ok(succeeded);
    }
  }

  // ----- The figures in words -----

  /** Bytes are counted on the UTC day on which their upload finished, if it succeeded. */
  lemma BytesInWords(log: seq<Attempt>, a: Attempt, day: int)
    ensures BytesOn([], day) == 0
    ensures BytesOn(log + [a], day)
            == BytesOn(log, day) + if a.outcome == Succeeded && a.finishedAt / 86400 == day then a.size else 0
    ensures WithinCap(log, day) <==> BytesOn(log, day) <= 53687091200
  {
    AttemptAdded(log, a, day);
  }

  /** A dispatch is refused when its day's bytes have reached the cap, or would pass it with its own. */
  lemma RefusalInWords(log: seq<Attempt>, size: nat, first: int, second: int)
    ensures Refused(log, size, first, second) <==>
              BytesOn(log, first / 86400) >= 53687091200 || BytesOn(log, second / 86400) + size > 53687091200
  {}

  /** One to three attempts: each but the last failed transiently, and the last did not unless it is the third. */
  lemma AttemptsInWords(j: Job)
    ensures var out := AttemptsFrom(j, 1);
            && 1 <= |out| <= 3
            && (forall k :: 0 <= k < |out| ==>
                  out[k] == Attempt(k + 1, j.clock(2 * k + 2), j.clock(2 * k + 3), j.outcomes(k + 1), j.size))
            && (forall k :: 0 <= k < |out| - 1 ==> out[k].outcome == FailedTransient)
            && (|out| < 3 ==> out[|out| - 1].outcome != FailedTransient)
  {
    RetryShape(j, 1);
  }

  /** An attempt is recorded under its dispatch's number; only a transient failure before the third allows another. */
  lemma UploadInWords(s: Traffic, k: nat, startedAt: int, finishedAt: int, outcome: Outcome)
    ensures var s' := Step(s, Upload(k, startedAt, finishedAt, outcome));
            if k < |s.flights| && s.flights[k].open then
              var f := s.flights[k];
              && s'.log == s.log + [Attempt(f.number, startedAt, finishedAt, outcome, f.size)]
              && s'.flights == s.flights[k := if outcome == FailedTransient && f.number < 3
                                              then Flight(f.size, f.number + 1, true)
                                              else Flight(f.size, f.number, false)]
            else s' == s
  {}
}
