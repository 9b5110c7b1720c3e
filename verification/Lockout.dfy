/**
  Password checking with a lockout: how fast wrong passwords can be tried.

  Times are epoch seconds with fractions; a lock is set in whole seconds.  A login attempt is
  two steps with the slow password hash between them: `Check` tests the lock and reads the
  failure count, `Finish` writes the outcome.  Nothing holds the row in between, so attempts
  overlap in any order.  Password hashing is the bit `correct`.
 */
module Lockout {
  import opened Wrappers

  const MAX_FAILED_LOGINS: nat := 5
  const LOCKOUT_SECONDS: int := 15 * 60

  datatype UserStatus = Active | Disabled | Locked

  datatype Account = Account(status: UserStatus, failures: nat, lockedUntil: Option<int>)

  datatype Verdict = UnknownUser | UserLocked | UserDisabled | BadPassword | LoggedIn

  predicate HoldsLock(a: Account, now: real) {
    a.status.Locked? && a.lockedUntil.Some? && a.lockedUntil.value != 0 && now < a.lockedUntil.value as real
  }

  predicate Admits(a: Account, now: real) {
    !HoldsLock(a, now) && !a.status.Disabled?
  }

  /** What a failure writes, from the count that was read; a time of zero counts as no lock. */
  function Failed(count: nat, now: int): Account {
    var until := if count + 1 >= MAX_FAILED_LOGINS then Some(now + LOCKOUT_SECONDS) else None;
    Account(if until.Some? && until.value != 0 then Locked else Active, count + 1, until)
  }

  function Cleared(a: Account): Account {
    Account(if a.status.Locked? then Active else a.status, 0, None)
  }

  /** A lock is in force until its time; a time of zero is none. */
  lemma LockInWords(a: Account, now: real)
    ensures HoldsLock(a, now) <==>
              a.status == Locked && exists until :: a.lockedUntil == Some(until) && until != 0 && now < until as real
    ensures Admits(a, now) <==> a.status != Disabled && !HoldsLock(a, now)
  {
    if a.lockedUntil.Some? {
      var until := a.lockedUntil.value;
      assert a.lockedUntil == Some(until);
    }
  }

  /** A failure counts one more than was read; the fifth and later ones lock for 900 seconds; a login clears all. */
  lemma OutcomesInWords(a: Account, count: nat, now: int)
    ensures var failed := Failed(count, now);
            && failed.failures == count + 1
            && (count < 4 ==> failed.status == Active && failed.lockedUntil == None)
            && (count >= 4 ==> failed.lockedUntil == Some(now + 900) && (failed.status == Locked <==> now != -900))
            && (failed.status == Active || failed.status == Locked)
    ensures Cleared(a) == Account(if a.status == Disabled then Disabled else Active, 0, None)
  {}

  // ----- Runs -----

  /** An attempt that has passed its check, with the failure count it read. */
  datatype Try = Try(count: nat, pending: bool)

  /** `wrong` are the times, in whole seconds, of the wrong passwords checked since the last login. */
  datatype Logins = Logins(account: Account, wrong: seq<int>, tries: seq<Try>)

  datatype Event =
    | Check(at: real)
    | Finish(k: nat, at: real, correct: bool)

  const START := Logins(Account(Active, 0, None), [], [])

  predicate Pending(s: Logins, k: nat) { k < |s.tries| && s.tries[k].pending }

  function Step(s: Logins, e: Event): Logins {
    match e
    case Check(at) =>
      if !Admits(s.account, at) then s else s.(tries := s.tries + [Try(s.account.failures, true)])
    case Finish(k, at, correct) =>
      if !Pending(s, k) then s
      else
        var tries := s.tries[k := s.tries[k].(pending := false)];
        if correct then Logins(Cleared(s.account), [], tries)
        else Logins(Failed(s.tries[k].count, at.Floor), s.wrong + [at.Floor], tries)
  }

  function Run(s: Logins, es: seq<Event>): Logins
    decreases |es|
  {
    if es == [] then s else Run(Step(s, es[0]), es[1..])
  }

  /** Events follow one another in time, from `now` on. */
  predicate InTime(now: real, es: seq<Event>)
    decreases |es|
  {
    0.0 <= now && (es != [] ==> now <= es[0].at && InTime(es[0].at, es[1..]))
  }

  // ----- What the lock is for -----

  /** The count is exact, and exactly from the fifth wrong password on the account is locked behind the latest. */
  predicate Guarded(s: Logins) {
    && s.account.failures == |s.wrong|
    && (forall k :: 0 <= k < |s.wrong| ==> s.wrong[k] >= 0)
    && (|s.wrong| < MAX_FAILED_LOGINS ==> s.account.lockedUntil.None?)
    && (|s.wrong| >= MAX_FAILED_LOGINS ==>
          s.account.status == Locked && s.account.lockedUntil == Some(s.wrong[|s.wrong| - 1] + LOCKOUT_SECONDS))
    && (forall k :: MAX_FAILED_LOGINS <= k < |s.wrong| ==> s.wrong[k] >= s.wrong[k - 1] + LOCKOUT_SECONDS)
  }

  /** What the check saw still holds when a failure is written: the same count, and no lock in force. */
  predicate Fresh(s: Logins, e: Event) {
    e.Finish? && Pending(s, e.k) && !e.correct ==>
      s.tries[e.k].count == s.account.failures && !HoldsLock(s.account, e.at)
  }

  /** One step keeps the guard exactly when it writes no failure on a stale check. */
  lemma StepExactly(s: Logins, e: Event)
    requires Guarded(s) && e.at >= 0.0
    ensures Guarded(Step(s, e)) <==> Fresh(s, e)
  {
    if e.Finish? && Pending(s, e.k) && !e.correct && s.tries[e.k].count == s.account.failures {
      var n := |s.wrong|;
      var wrong' := Step(s, e).wrong;
      assert wrong'[n] == e.at.Floor && wrong'[..n] == s.wrong;
      if n >= MAX_FAILED_LOGINS {
        assert !HoldsLock(s.account, e.at) <==> wrong'[n] >= wrong'[n - 1] + LOCKOUT_SECONDS;
      }
    }
  }

  /** Along a run, the guard holds at every moment. */
  predicate AlwaysGuarded(s: Logins, es: seq<Event>)
    decreases |es|
  {
    Guarded(s) && (es != [] ==> AlwaysGuarded(Step(s, es[0]), es[1..]))
  }

  predicate AllFresh(s: Logins, es: seq<Event>)
    decreases |es|
  {
    es != [] ==> Fresh(s, es[0]) && AllFresh(Step(s, es[0]), es[1..])
  }

  /** However attempts overlap: the guard holds throughout if and only if no failure is written on a stale check. */
  lemma {:induction false} GuardedExactly(s: Logins, now: real, es: seq<Event>)
    requires Guarded(s) && InTime(now, es)
    ensures AlwaysGuarded(s, es) <==> AllFresh(s, es)
    decreases |es|
  {
    if es != [] {
      StepExactly(s, es[0]);
      if Fresh(s, es[0]) {
        GuardedExactly(Step(s, es[0]), es[0].at, es[1..]);
      }
    }
  }

  lemma {:induction false} GuardedAtEnd(s: Logins, es: seq<Event>)
    requires AlwaysGuarded(s, es)
    ensures Guarded(Run(s, es))
    decreases |es|
  {
    if es != [] {
      GuardedAtEnd(Step(s, es[0]), es[1..]);
    }
  }

  lemma {:induction false} SpacedOut(s: Logins, k: nat)
    requires Guarded(s) && MAX_FAILED_LOGINS <= k < |s.wrong|
    ensures s.wrong[k] >= s.wrong[MAX_FAILED_LOGINS - 1] + LOCKOUT_SECONDS * (k + 1 - MAX_FAILED_LOGINS)
  {
    if k > MAX_FAILED_LOGINS {
      SpacedOut(s, k - 1);
    }
  }

  /** Between logins, the k-th wrong password comes at least a full lockout per extra try after the fifth. */
  lemma WrongPasswordsAreSpaced(es: seq<Event>, k: nat)
    requires InTime(0.0, es) && AllFresh(START, es) && 5 <= k < |Run(START, es).wrong|
    ensures var wrong := Run(START, es).wrong;
            wrong[k] >= wrong[4] + 900 * (k - 4)
  {
    GuardedExactly(START, 0.0, es);
    GuardedAtEnd(START, es);
    SpacedOut(Run(START, es), k);
  }

  predicate Ascending(wrong: seq<int>, bound: int) {
    && (forall j, k :: 0 <= j <= k < |wrong| ==> wrong[j] <= wrong[k])
    && (forall k :: 0 <= k < |wrong| ==> wrong[k] <= bound)
  }

  lemma {:induction false} TimesAscend(s: Logins, now: real, es: seq<Event>)
    requires InTime(now, es) && Ascending(s.wrong, now.Floor)
    ensures exists bound :: Ascending(Run(s, es).wrong, bound)
    decreases |es|
  {
    if es != [] {
      TimesAscend(Step(s, es[0]), es[0].at, es[1..]);
      var bound :| Ascending(Run(Step(s, es[0]), es[1..]).wrong, bound);
      assert Ascending(Run(s, es).wrong, bound);
    } else {
      assert Ascending(Run(s, es).wrong, now.Floor);
    }
  }

  /** At most five wrong passwords, and one more per fifteen minutes, are checked between logins. */
  lemma GuessesAreBounded(es: seq<Event>, since: int, until: int)
    requires InTime(0.0, es) && AllFresh(START, es) && Run(START, es).wrong != []
    requires var wrong := Run(START, es).wrong; since <= wrong[0] && wrong[|wrong| - 1] <= until
    ensures |Run(START, es).wrong| <= 5 + (until - since) / 900
  {
    var wrong := Run(START, es).wrong;
    TimesAscend(START, 0.0, es);
    assert wrong[0] <= wrong[|wrong| - 1];
    if |wrong| > MAX_FAILED_LOGINS {
      WrongPasswordsAreSpaced(es, |wrong| - 1);
      assert wrong[0] <= wrong[MAX_FAILED_LOGINS - 1];
    }
  }

  // ----- Which attempts may overlap -----

  predicate OnlyFinishes(es: seq<Event>) {
    forall i :: 0 <= i < |es| ==> es[i].Finish?
  }

  /** However the attempts in hand end, and whenever from `now` on, the guard holds. */
  ghost predicate Safe(s: Logins, now: real) {
    forall es :: InTime(now, es) && OnlyFinishes(es) ==> Guarded(Run(s, es))
  }

  predicate NoneInHand(s: Logins) {
    forall k :: 0 <= k < |s.tries| ==> !s.tries[k].pending
  }

  /** At most one attempt is in hand, and its check still holds. */
  predicate OneInHand(s: Logins, now: real) {
    && (forall j, k :: 0 <= j < k < |s.tries| ==> !(s.tries[j].pending && s.tries[k].pending))
    && (forall k :: 0 <= k < |s.tries| && s.tries[k].pending ==>
          s.tries[k].count == s.account.failures && !HoldsLock(s.account, now))
  }

  lemma {:induction false} OneIsSafe(s: Logins, now: real, es: seq<Event>)
    requires Guarded(s) && OneInHand(s, now) && InTime(now, es) && OnlyFinishes(es)
    ensures Guarded(Run(s, es))
    decreases |es|
  {
    if es != [] {
      StepExactly(s, es[0]);
      OneIsSafe(Step(s, es[0]), es[0].at, es[1..]);
    }
  }

  lemma RunOfOne(s: Logins, e: Event)
    ensures Run(s, [e]) == Step(s, e)
  {
    assert Run(Step(s, e), []) == Step(s, e);
  }

  lemma RunOfTwo(s: Logins, d: Event, e: Event)
    ensures Run(s, [d, e]) == Step(Step(s, d), e)
  {
    assert [d, e][1..] == [e];
    RunOfOne(Step(s, d), e);
  }

  /** Of two attempts in hand, the second failure to be written is lost. */
  lemma TwoAreUnsafe(s: Logins, now: real, j: nat, k: nat)
    requires Guarded(s) && now >= 0.0 && j != k && Pending(s, j) && Pending(s, k)
    ensures !Safe(s, now)
  {
    var d, e := Finish(j, now, false), Finish(k, now, false);
    RunOfOne(s, d);
    RunOfOne(s, e);
    RunOfTwo(s, d, e);
    StepExactly(s, d);
    StepExactly(s, e);
    assert InTime(now, [d]) && InTime(now, [e]) && InTime(now, [d, e]);
    if Guarded(Step(s, d)) {
      StepExactly(Step(s, d), e);
    }
  }

  /** What is in hand is harmless exactly when it is at most one attempt, on a check that still holds. */
  lemma SafeExactly(s: Logins, now: real)
    requires now >= 0.0
    ensures Safe(s, now) <==> Guarded(s) && OneInHand(s, now)
  {
    if Safe(s, now) {
      assert InTime(now, []) && OnlyFinishes([]) && Run(s, []) == s;
      forall k | 0 <= k < |s.tries| && s.tries[k].pending
        ensures s.tries[k].count == s.account.failures && !HoldsLock(s.account, now)
      {
        var e := Finish(k, now, false);
        RunOfOne(s, e);
        assert InTime(now, [e]) && OnlyFinishes([e]);
        StepExactly(s, e);
      }
      forall j, k | 0 <= j < k < |s.tries| ensures !(s.tries[j].pending && s.tries[k].pending) {
        if s.tries[j].pending && s.tries[k].pending {
          TwoAreUnsafe(s, now, j, k);
        }
      }
    }
    if Guarded(s) && OneInHand(s, now) {
      forall es | InTime(now, es) && OnlyFinishes(es) ensures Guarded(Run(s, es)) {
        OneIsSafe(s, now, es);
      }
    }
  }

  /** Letting an attempt in is safe exactly when no other on the account is in hand, which the code does not ask. */
  lemma AdmissionExactly(s: Logins, now: real, at: real)
    requires 0.0 <= now <= at && Safe(s, now) && Admits(s.account, at)
    ensures Safe(Step(s, Check(at)), at) <==> NoneInHand(s)
  {
    SafeExactly(s, now);
    SafeExactly(Step(s, Check(at)), at);
    var s' := Step(s, Check(at));
    assert s'.tries[|s.tries|].pending;
    assert forall k :: 0 <= k < |s.tries| ==> s'.tries[k] == s.tries[k];
  }

  ghost predicate AlwaysSafe(s: Logins, now: real, es: seq<Event>)
    decreases |es|
  {
    Safe(s, now) && (es != [] ==> AlwaysSafe(Step(s, es[0]), es[0].at, es[1..]))
  }

  /** Every attempt that is let in finds no other in hand. */
  predicate OneAtATime(s: Logins, es: seq<Event>)
    decreases |es|
  {
    es != [] ==>
      && (es[0].Check? && Admits(s.account, es[0].at) ==> NoneInHand(s))
      && OneAtATime(Step(s, es[0]), es[1..])
  }

  lemma UnlessAdmitted(s: Logins, now: real, e: Event)
    requires 0.0 <= now <= e.at && Safe(s, now) && (e.Check? ==> !Admits(s.account, e.at))
    ensures Safe(Step(s, e), e.at)
  {
    SafeExactly(s, now);
    StepExactly(s, e);
    SafeExactly(Step(s, e), e.at);
  }

  /** A run is safe at every moment if and only if attempts on the account are let in one at a time. */
  lemma {:induction false} OverlapExactly(s: Logins, now: real, es: seq<Event>)
    requires Safe(s, now) && InTime(now, es)
    ensures AlwaysSafe(s, now, es) <==> OneAtATime(s, es)
    decreases |es|
  {
    if es != [] {
      var e := es[0];
      if e.Check? && Admits(s.account, e.at) {
        AdmissionExactly(s, now, e.at);
      } else {
        UnlessAdmitted(s, now, e);
      }
      if Safe(Step(s, e), e.at) {
        OverlapExactly(Step(s, e), e.at, es[1..]);
      }
    }
  }

  /** Attempts let in one at a time never write on a stale check. */
  lemma {:induction false} OneAtATimeIsFresh(s: Logins, now: real, es: seq<Event>)
    requires Guarded(s) && OneInHand(s, now) && InTime(now, es) && OneAtATime(s, es)
    ensures AllFresh(s, es)
    decreases |es|
  {
    if es != [] {
      StepExactly(s, es[0]);
      OneAtATimeIsFresh(Step(s, es[0]), es[0].at, es[1..]);
    }
  }

  datatype Attempt = Attempt(checkedAt: real, finishedAt: real, correct: bool)

  /** Attempts one after another: each is finished before the next is checked. */
  function InTurn(s: Logins, attempts: seq<Attempt>): seq<Event>
    decreases |attempts|
  {
    if attempts == [] then []
    else
      var check := Check(attempts[0].checkedAt);
      var finish := Finish(|s.tries|, attempts[0].finishedAt, attempts[0].correct);
      [check, finish] + InTurn(Step(Step(s, check), finish), attempts[1..])
  }

  lemma {:induction false} InTurnIsOneAtATime(s: Logins, attempts: seq<Attempt>)
    requires NoneInHand(s)
    ensures OneAtATime(s, InTurn(s, attempts))
    decreases |attempts|
  {
    if attempts != [] {
      var es := InTurn(s, attempts);
      var s' := Step(Step(s, es[0]), es[1]);
      InTurnIsOneAtATime(s', attempts[1..]);
      assert es[1..][1..] == InTurn(s', attempts[1..]);
      assert OneAtATime(Step(s, es[0]), es[1..]);
    }
  }

  function Checks(n: nat, t: real): (es: seq<Event>)
    ensures |es| == n
  {
    if n == 0 then [] else [Check(t)] + Checks(n - 1, t)
  }

  /** The attempts from the k-th to the n-th fail. */
  function Failures(k: nat, n: nat, t: real): (es: seq<Event>)
    requires k <= n
    decreases n - k
  {
    if k == n then [] else [Finish(k, t, false)] + Failures(k + 1, n, t)
  }

  lemma {:induction false} RunThen(s: Logins, es: seq<Event>, fs: seq<Event>)
    ensures Run(s, es + fs) == Run(Run(s, es), fs)
    decreases |es|
  {
    if es == [] {
      assert es + fs == fs;
    } else {
      assert (es + fs)[1..] == es[1..] + fs;
      RunThen(Step(s, es[0]), es[1..], fs);
    }
  }

  lemma {:induction false} ChecksRun(s: Logins, n: nat, t: real)
    requires Admits(s.account, t)
    ensures Run(s, Checks(n, t)) == s.(tries := s.tries + seq(n, i => Try(s.account.failures, true)))
    decreases n
  {
    var one := Try(s.account.failures, true);
    if n == 0 {
      assert s.tries + seq(0, i => one) == s.tries;
    } else {
      ChecksRun(s.(tries := s.tries + [one]), n - 1, t);
      assert s.tries + [one] + seq(n - 1, i => one) == s.tries + seq(n, i => one);
    }
  }

  lemma {:induction false} FailuresRun(s: Logins, k: nat, t: real)
    requires k <= |s.tries| && forall i :: k <= i < |s.tries| ==> s.tries[i] == Try(0, true)
    ensures var r := Run(s, Failures(k, |s.tries|, t));
            && |r.wrong| == |s.wrong| + |s.tries| - k
            && (k < |s.tries| ==> r.account == Account(Active, 1, None))
    decreases |s.tries| - k
  {
    if k < |s.tries| {
      FailuresRun(Step(s, Finish(k, t, false)), k + 1, t);
    }
  }

  /** Any number of failures whose checks came before all of them counts as one, and locks nothing. */
  lemma OverlapLosesCount(n: nat, t: real)
    requires n > 0
    ensures var s := Run(START, Checks(n, t) + Failures(0, n, t));
            |s.wrong| == n && s.account == Account(Active, 1, None)
  {
    var checked := Run(START, Checks(n, t));
    RunThen(START, Checks(n, t), Failures(0, n, t));
    ChecksRun(START, n, t);
    FailuresRun(checked, 0, t);
  }

  // ----- The service -----

  class AuthService {
    var users: map<string, Account>

    constructor ()
      ensures users == map[]
    {
      users := map[];
    }

    /** The first half of an attempt: the failure count it read, or why it goes no further. */
    method CheckAccount(username: string, now: real) returns (r: Result<nat, Verdict>)
      ensures r == (if username !in users then Err(UnknownUser)
                    else if HoldsLock(users[username], now) then Err(UserLocked)
                    else if users[username].status.Disabled? then Err(UserDisabled)
                    else Ok(users[username].failures))
    {
      if username !in users {
        return Err(UnknownUser);
      }
      var row := users[username];
      if row.status.Locked? && row.lockedUntil.Some? && row.lockedUntil.value != 0
         && now < row.lockedUntil.value as real {
        return Err(UserLocked);
      }
      if row.status.Disabled? {
        return Err(UserDisabled);
      }
      return Ok(row.failures);
    }

    /** The second half: clear the failures, or write one more than was read, whatever the row says by now. */
    method FinishAttempt(username: string, count: nat, now: real, correct: bool)
      requires username in users
      modifies this
      ensures users ==
              old(users)[username := if correct then Cleared(old(users)[username]) else Failed(count, now.Floor)]
    {
      if !correct {
        RegisterFailure(username, count, now.Floor);
        return;
      }
      var row := users[username];
      users := users[username := Account(if row.status.Locked? then Active else row.status, 0, None)];
    }

    /** An attempt nobody interrupts. */
    method Authenticate(username: string, checkedAt: real, finishedAt: real, correct: bool) returns (v: Verdict)
      modifies this
      ensures v.LoggedIn? || v.BadPassword? <==> username in old(users) && Admits(old(users)[username], checkedAt)
      ensures v.LoggedIn? ==> correct && users == old(users)[username := Cleared(old(users)[username])]
      ensures v.BadPassword? ==>
                !correct && users == old(users)[username := Failed(old(users)[username].failures, finishedAt.Floor)]
      ensures v.UnknownUser? <==> username !in old(users)
      ensures v.UserLocked? <==> username in old(users) && HoldsLock(old(users)[username], checkedAt)
      ensures v.UnknownUser? || v.UserLocked? || v.UserDisabled? ==> users == old(users)
    {
      var checked := CheckAccount(username, checkedAt);
      if checked.Err? {
        return checked.error;
      }
      FinishAttempt(username, checked.value, finishedAt, correct);
      return if correct then LoggedIn else BadPassword;
    }

    method RegisterFailure(username: string, previousCount: nat, now: int)
      modifies this
      ensures users == old(users)[username := Failed(previousCount, now)]
    {
      var count := previousCount + 1;
      var lockedUntil := if count >= MAX_FAILED_LOGINS then Some(now + LOCKOUT_SECONDS) else None;
      var status := if lockedUntil.Some? && lockedUntil.value != 0 then Locked else Active;
      users := users[username := Account(status, count, lockedUntil)];
    }
  }

  /** A check that is let in remembers the count it read; a finish writes on that count, and touches nothing else. */
  lemma StepsInWords(s: Logins, at: real, k: nat, correct: bool)
    ensures Step(s, Check(at))
            == if s.account.status == Disabled || HoldsLock(s.account, at) then s
               else Logins(s.account, s.wrong, s.tries + [Try(s.account.failures, true)])
    ensures k >= |s.tries| || !s.tries[k].pending ==> Step(s, Finish(k, at, correct)) == s
    ensures k < |s.tries| && s.tries[k].pending ==>
              var s' := Step(s, Finish(k, at, correct));
              && s'.tries == s.tries[k := Try(s.tries[k].count, false)]
              && (correct ==> s'.wrong == [] && s'.account == Cleared(s.account))
              && (!correct ==> s'.wrong == s.wrong + [at.Floor] && s'.account == Failed(s.tries[k].count, at.Floor))
  {}
}
