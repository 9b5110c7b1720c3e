/**
  The conflict table of the operation engine, type by type: what one request does to a store,
  in terms of the rows that are there, the rows that go, and the row that is added.
 */
module OperationLaws {
  import opened Wrappers
  import opened OperationModel
  import opened OperationRuns

  // ----- The vocabulary -----

  lemma StatusesInWords(s: Status)
    ensures InFlight(s) <==> s == Created || s == Queued || s == Validating || s == Running
    ensures Terminal(s) <==> s == Completed || s == Failed || s == Cancelled || s == TimedOut
    ensures Active(s) <==> s == Created || s == Validating || s == Running
  {}

  /** Cleanups share a scope when they name the same one; one that names none has its world, if any. */
  lemma ScopesInWords(r: Row, req: Request)
    requires r.opType == Cleanup && req.opType == Cleanup
    ensures var named := r.data.Some? && r.data.value.scope.Some? && r.data.value.scope.value != "";
            var asked := req.data.Some? && req.data.value.scope.Some? && req.data.value.scope.value != "";
            SameScope(r, req) <==>
              if named && asked then r.data.value.scope.value == req.data.value.scope.value
              else if named then req.worldId.Some? && r.data.value.scope.value == "world:" + req.worldId.value
              else if asked then r.worldId.Some? && "world:" + r.worldId.value == req.data.value.scope.value
              else r.worldId.Some? && r.worldId == req.worldId
  {
    if r.worldId.Some? && req.worldId.Some? {
      assert ("world:" + r.worldId.value)[6..] == r.worldId.value;
      assert ("world:" + req.worldId.value)[6..] == req.worldId.value;
    }
  }

  /** The i-th row is in flight in the request's world. */
  predicate There(s: Store, req: Request, i: nat) {
    i < |s.rows| && s.rows[i].worldId == req.worldId && InFlight(s.rows[i].status)
  }

  function AddedRow(req: Request, status: Status, now: int): Row {
    Row(req.opType, req.worldId, req.key, status, if status == Running then Some(now) else None,
        None, None, None, req.data, now, now)
  }

  /** One row is added, and nothing else happens. */
  predicate Adds(s: Store, s': Store, req: Request, status: Status, now: int) {
    s'.rows == s.rows + [AddedRow(req, status, now)] && s'.audits == s.audits && s'.notes == s.notes
  }

  function SupersededRow(r: Row, code: string, now: int): Row {
    r.(status := Cancelled, finishedAt := Some(now), errorCode := Some(code), updatedAt := now)
  }

  /** One row is added and the rows in `gone` are cancelled, each with its own audit; no other row changes. */
  predicate Supersedes(s: Store, s': Store, req: Request, status: Status, gone: set<nat>, code: string, now: int) {
    var n := |s.rows|;
    && |s'.rows| == n + 1 && s'.rows[n] == AddedRow(req, status, now) && s'.notes == s.notes
    && (forall i :: 0 <= i < n ==> s'.rows[i] == if i in gone then SupersededRow(s.rows[i], code, now) else s.rows[i])
    && s.audits <= s'.audits && |s'.audits| == |s.audits| + |gone|
    && (forall i :: i in gone ==> exists k :: |s.audits| <= k < |s'.audits| && s'.audits[k].opId == i)
  }

  /** The request is for a world and repeats no idempotency key of its type. */
  predicate NewInWorld(s: Store, req: Request) {
    req.worldId.Some?
    && (req.key.Some? ==> forall i :: 0 <= i < |s.rows| ==> s.rows[i].opType != req.opType || s.rows[i].key != req.key)
  }

  /** The oldest in-flight row of the request's own type and world is the answer. */
  predicate OldestOfKind(s: Store, req: Request, id: nat) {
    There(s, req, id) && s.rows[id].opType == req.opType
    && forall i: nat :: There(s, req, i) && s.rows[i].opType == req.opType ==> id <= i
  }

  // ----- From the table to the policy -----

  lemma ThereIsActive(s: Store, req: Request, i: nat)
    requires req.worldId.Some?
    ensures i in ActiveOps(s.rows, req.worldId.value) <==> There(s, req, i)
  {}

  lemma GoesThroughPolicy(s: Store, req: Request, initial: OpenStatus, now: int)
    requires NewInWorld(s, req) && req.opType != Sync
    ensures Create(s, req, initial, false, now) == CreatePoliced(s, req, RequestedStatus(s.rows, req, initial), now)
  {}

  lemma {:induction false} RepeatedIsOldest(rows: seq<Row>, req: Request, w: string)
    requires req.opType == Start || req.opType == Stop
    ensures var found := FindRepeated(rows, req, w);
            forall i :: 0 <= i < |rows| && InWorld(rows[i], w) && rows[i].opType == req.opType ==>
              found.Some? && found.value <= i
  {
    if rows != [] {
      RepeatedIsOldest(rows[..|rows| - 1], req, w);
    }
  }

  lemma {:induction false} NoAudits(rows: seq<Row>)
    ensures AuditsOf(rows, {}) == []
  {
    if rows != [] {
      NoAudits(rows[..|rows| - 1]);
    }
  }

  lemma PlainInsert(s: Store, req: Request, status: OpenStatus, policed: bool, now: int)
    ensures Adds(s, Insert(s, req, status, {}, policed, now), req, status, now)
  {
    NoAudits(s.rows);
    assert CancelRows(s.rows, {}, now, SupersededBy(req)) == s.rows;
  }

  lemma {:induction false} OneAuditEach(rows: seq<Row>, gone: set<nat>)
    requires forall i :: i in gone ==> i < |rows|
    ensures |AuditsOf(rows, gone)| == |gone|
    ensures forall i :: i in gone ==> exists k :: 0 <= k < |AuditsOf(rows, gone)| && AuditsOf(rows, gone)[k].opId == i
  {
    if rows == [] {
      assert gone == {};
    } else {
      var n := |rows| - 1;
      var audits := AuditsOf(rows[..n], gone - {n});
      OneAuditEach(rows[..n], gone - {n});
      SameAudits(rows[..n], gone, gone - {n});
      forall i | i in gone ensures exists k :: 0 <= k < |AuditsOf(rows, gone)| && AuditsOf(rows, gone)[k].opId == i {
        if i == n {
          assert AuditsOf(rows, gone)[|audits|].opId == n;
        } else {
          var k :| 0 <= k < |audits| && audits[k].opId == i;
          assert AuditsOf(rows, gone)[k] == audits[k];
        }
      }
      assert n !in gone ==> gone - {n} == gone;
    }
  }

  lemma {:induction false} SameAudits(rows: seq<Row>, a: set<nat>, b: set<nat>)
    requires forall i :: 0 <= i < |rows| ==> (i in a <==> i in b)
    ensures AuditsOf(rows, a) == AuditsOf(rows, b)
  {
    if rows != [] {
      SameAudits(rows[..|rows| - 1], a, b);
    }
  }

  lemma InsertSupersedes(s: Store, req: Request, status: OpenStatus, gone: set<nat>, now: int)
    requires forall i :: i in gone ==> i < |s.rows| && InFlight(s.rows[i].status)
    ensures Supersedes(s, Insert(s, req, status, gone, true, now), req, status, gone, SupersededBy(req), now)
  {
    var s' := Insert(s, req, status, gone, true, now);
    var rows := CancelRows(s.rows, gone, now, SupersededBy(req));
    OneAuditEach(rows, gone);
    forall i | i in gone ensures exists k :: |s.audits| <= k < |s'.audits| && s'.audits[k].opId == i {
      var batch := s'.audits[|s.audits|..];
      var k :| 0 <= k < |batch| && batch[k].opId == i;
      assert s'.audits[|s.audits| + k] == batch[k];
    }
  }

  // ----- The table -----

  /** What the policy decides when it takes nothing off. */
  lemma PlainPolicy(s: Store, req: Request, status: OpenStatus, now: int)
    requires req.worldId.Some? && Victims(s.rows, req, ActiveOps(s.rows, req.worldId.value)) == {}
    requires FindRepeated(s.rows, req, req.worldId.value).None?
    ensures var active := ActiveOps(s.rows, req.worldId.value);
            var (s', o) := CreatePoliced(s, req, status, now);
            if Admits(s.rows, req, active) then
              o == Inserted(|s.rows|) && Adds(s, s', req, if Waits(s.rows, req, active) then Queued else status, now)
            else o == Conflict && s' == s
  {
    var active := ActiveOps(s.rows, req.worldId.value);
    PlainInsert(s, req, if Waits(s.rows, req, active) then Queued else status, true, now);
  }

  lemma ArrivesAsAsked(s: Store, req: Request, initial: OpenStatus)
    requires req.opType != Sync && req.opType != Cleanup
    ensures RequestedStatus(s.rows, req, initial) == initial
  {}

  /** Start: beside backups and cleanups only; one already in flight is the answer. */
  lemma StartDecision(s: Store, req: Request, initial: OpenStatus, now: int)
    requires req.opType == Start && NewInWorld(s, req)
    ensures var (s', o) := Create(s, req, initial, false, now);
            if exists i: nat :: There(s, req, i) && s.rows[i].opType == Start then
              s' == s && o.Replayed? && OldestOfKind(s, req, o.id)
            else if forall i: nat :: There(s, req, i) ==> s.rows[i].opType == Backup || s.rows[i].opType == Cleanup then
              o == Inserted(|s.rows|) && Adds(s, s', req, initial, now)
            else o == Conflict && s' == s
  {
    GoesThroughPolicy(s, req, initial, now);
    ArrivesAsAsked(s, req, initial);
    RepeatedIsOldest(s.rows, req, req.worldId.value);
    if FindRepeated(s.rows, req, req.worldId.value).None? {
      PlainPolicy(s, req, initial, now);
      StartFits(s, req);
    }
  }

  lemma StartFits(s: Store, req: Request)
    requires req.opType == Start && req.worldId.Some?
    ensures var active := ActiveOps(s.rows, req.worldId.value);
            && !Waits(s.rows, req, active)
            && (Admits(s.rows, req, active)
                <==> forall i: nat :: There(s, req, i) ==> s.rows[i].opType == Backup || s.rows[i].opType == Cleanup)
  {
    forall i: nat ensures i in ActiveOps(s.rows, req.worldId.value) <==> There(s, req, i) {
      ThereIsActive(s, req, i);
    }
  }

  /** Stop: beside backups and cleanups only, behind a backup; one already in flight is the answer. */
  lemma StopDecision(s: Store, req: Request, initial: OpenStatus, now: int)
    requires req.opType == Stop && NewInWorld(s, req)
    ensures var (s', o) := Create(s, req, initial, false, now);
            if exists i: nat :: There(s, req, i) && s.rows[i].opType == Stop then
              s' == s && o.Replayed? && OldestOfKind(s, req, o.id)
            else if forall i: nat :: There(s, req, i) ==> s.rows[i].opType == Backup || s.rows[i].opType == Cleanup then
              o == Inserted(|s.rows|)
              && Adds(s, s', req,
                      if exists i: nat :: There(s, req, i) && s.rows[i].opType == Backup then Queued else initial, now)
            else o == Conflict && s' == s
  {
    GoesThroughPolicy(s, req, initial, now);
    ArrivesAsAsked(s, req, initial);
    RepeatedIsOldest(s.rows, req, req.worldId.value);
    if FindRepeated(s.rows, req, req.worldId.value).None? {
      PlainPolicy(s, req, initial, now);
      StopFits(s, req);
    }
  }

  lemma StopFits(s: Store, req: Request)
    requires req.opType == Stop && req.worldId.Some?
    ensures var active := ActiveOps(s.rows, req.worldId.value);
            && (Waits(s.rows, req, active) <==> exists i: nat :: There(s, req, i) && s.rows[i].opType == Backup)
            && (Admits(s.rows, req, active)
                <==> forall i: nat :: There(s, req, i) ==> s.rows[i].opType == Backup || s.rows[i].opType == Cleanup)
  {
    forall i: nat ensures i in ActiveOps(s.rows, req.worldId.value) <==> There(s, req, i) {
      ThereIsActive(s, req, i);
    }
  }

  /** Kill: beside backups and cleanups only, or over stops alone, which it takes off. */
  lemma KillDecision(s: Store, req: Request, initial: OpenStatus, now: int)
    requires req.opType == Kill && NewInWorld(s, req)
    ensures var (s', o) := Create(s, req, initial, false, now);
            if forall i: nat :: There(s, req, i) ==> s.rows[i].opType == Stop then
              o == Inserted(|s.rows|)
              && Supersedes(s, s', req, initial, set i: nat | i < |s.rows| && There(s, req, i),
                            "superseded_by_kill", now)
            else if forall i: nat :: There(s, req, i) ==> s.rows[i].opType == Backup || s.rows[i].opType == Cleanup then
              o == Inserted(|s.rows|) && Adds(s, s', req, initial, now)
            else o == Conflict && s' == s
  {
    GoesThroughPolicy(s, req, initial, now);
    ArrivesAsAsked(s, req, initial);
    KillFits(s, req);
    var active := ActiveOps(s.rows, req.worldId.value);
    if Victims(s.rows, req, active) == {} {
      PlainPolicy(s, req, initial, now);
    }
    if forall i: nat :: There(s, req, i) ==> s.rows[i].opType == Stop {
      InsertSupersedes(s, req, initial, active, now);
    }
  }

  lemma KillFits(s: Store, req: Request)
    requires req.opType == Kill && req.worldId.Some?
    ensures var active := ActiveOps(s.rows, req.worldId.value);
            var onlyStops := forall i: nat :: There(s, req, i) ==> s.rows[i].opType == Stop;
            && active == (set i: nat | i < |s.rows| && There(s, req, i))
            && !Waits(s.rows, req, active) && FindRepeated(s.rows, req, req.worldId.value).None?
            && Victims(s.rows, req, active) == (if onlyStops then active else {})
            && (Admits(s.rows, req, active)
                <==> onlyStops
                     || forall i: nat :: There(s, req, i) ==> s.rows[i].opType == Backup || s.rows[i].opType == Cleanup)
  {
    forall i: nat ensures i in ActiveOps(s.rows, req.worldId.value) <==> There(s, req, i) {
      ThereIsActive(s, req, i);
    }
  }

  /** Backup: beside starts, stops and kills, and behind backups. */
  lemma BackupDecision(s: Store, req: Request, initial: OpenStatus, now: int)
    requires req.opType == Backup && NewInWorld(s, req)
    ensures var (s', o) := Create(s, req, initial, false, now);
            if forall i: nat :: There(s, req, i) ==>
                 var t := s.rows[i].opType; t == Start || t == Stop || t == Kill || t == Backup
            then
              o == Inserted(|s.rows|)
              && Adds(s, s', req,
                      if exists i: nat :: There(s, req, i) && s.rows[i].opType == Backup then Queued else initial, now)
            else o == Conflict && s' == s
  {
    GoesThroughPolicy(s, req, initial, now);
    ArrivesAsAsked(s, req, initial);
    BackupFits(s, req);
    PlainPolicy(s, req, initial, now);
  }

  lemma BackupFits(s: Store, req: Request)
    requires req.opType == Backup && req.worldId.Some?
    ensures var active := ActiveOps(s.rows, req.worldId.value);
            && FindRepeated(s.rows, req, req.worldId.value).None?
            && (Waits(s.rows, req, active) <==> exists i: nat :: There(s, req, i) && s.rows[i].opType == Backup)
            && (Admits(s.rows, req, active)
                <==> forall i: nat :: There(s, req, i) ==>
                       var t := s.rows[i].opType; t == Start || t == Stop || t == Kill || t == Backup)
  {
    forall i: nat ensures i in ActiveOps(s.rows, req.worldId.value) <==> There(s, req, i) {
      ThereIsActive(s, req, i);
    }
  }

  /** Restore: takes queued deletions off, goes in when nothing but restores is left, and behind those. */
  lemma RestoreDecision(s: Store, req: Request, initial: OpenStatus, now: int)
    requires req.opType == Restore && NewInWorld(s, req)
    ensures var (s', o) := Create(s, req, initial, false, now);
            if forall i: nat :: There(s, req, i) ==>
                 var r := s.rows[i]; r.opType == Restore || (r.opType == DeleteWorld && r.status == Queued)
            then
              o == Inserted(|s.rows|)
              && Supersedes(s, s', req,
                            if exists i: nat :: There(s, req, i) && s.rows[i].opType == Restore
                            then Queued else initial,
                            set i: nat | i < |s.rows| && There(s, req, i) && s.rows[i].opType == DeleteWorld,
                            "superseded_by_restore", now)
            else o == Conflict && s' == s
  {
    GoesThroughPolicy(s, req, initial, now);
    ArrivesAsAsked(s, req, initial);
    RestoreFits(s, req);
    var active := ActiveOps(s.rows, req.worldId.value);
    if Admits(s.rows, req, active) {
      InsertSupersedes(s, req, if Waits(s.rows, req, active) then Queued else initial,
                       QueuedDeletes(s.rows, active), now);
    }
  }

  lemma RestoreFits(s: Store, req: Request)
    requires req.opType == Restore && req.worldId.Some?
    ensures var active := ActiveOps(s.rows, req.worldId.value);
            var fits := forall i: nat :: There(s, req, i) ==>
              var r := s.rows[i]; r.opType == Restore || (r.opType == DeleteWorld && r.status == Queued);
            && FindRepeated(s.rows, req, req.worldId.value).None?
            && Victims(s.rows, req, active) == QueuedDeletes(s.rows, active)
            && (Waits(s.rows, req, active) <==> exists i: nat :: There(s, req, i) && s.rows[i].opType == Restore)
            && (Admits(s.rows, req, active) <==> fits)
            && (fits ==> QueuedDeletes(s.rows, active)
                         == set i: nat | i < |s.rows| && There(s, req, i) && s.rows[i].opType == DeleteWorld)
  {
    forall i: nat ensures i in ActiveOps(s.rows, req.worldId.value) <==> There(s, req, i) {
      ThereIsActive(s, req, i);
    }
  }

  /** Cleanup: beside starts, stops, kills and cleanups, or behind one of its scope whatever else is there. */
  lemma CleanupDecision(s: Store, req: Request, initial: OpenStatus, now: int)
    requires req.opType == Cleanup && NewInWorld(s, req)
    ensures var (s', o) := Create(s, req, initial, false, now);
            if (exists i: nat :: There(s, req, i) && SameScope(s.rows[i], req))
               || forall i: nat :: There(s, req, i) ==>
                    var t := s.rows[i].opType; t == Start || t == Stop || t == Kill || t == Cleanup
            then o == Inserted(|s.rows|) && Adds(s, s', req, CleanupStatus(s, req, initial), now)
            else o == Conflict && s' == s
  {
    GoesThroughPolicy(s, req, initial, now);
    CleanupFits(s, req, initial);
    PlainPolicy(s, req, RequestedStatus(s.rows, req, initial), now);
  }

  /** A cleanup queues behind any in-flight cleanup of its scope, in whatever world. */
  function CleanupStatus(s: Store, req: Request, initial: OpenStatus): OpenStatus {
    if exists i: nat :: i < |s.rows| && InFlight(s.rows[i].status) && SameScope(s.rows[i], req) then Queued else initial
  }

  lemma CleanupFits(s: Store, req: Request, initial: OpenStatus)
    requires req.opType == Cleanup && req.worldId.Some?
    ensures var active := ActiveOps(s.rows, req.worldId.value);
            && FindRepeated(s.rows, req, req.worldId.value).None?
            && RequestedStatus(s.rows, req, initial) == CleanupStatus(s, req, initial)
            && (Waits(s.rows, req, active) ==> CleanupStatus(s, req, initial) == Queued)
            && (Admits(s.rows, req, active)
                <==> (exists i: nat :: There(s, req, i) && SameScope(s.rows[i], req))
                     || forall i: nat :: There(s, req, i) ==>
                          var t := s.rows[i].opType; t == Start || t == Stop || t == Kill || t == Cleanup)
  {
    forall i: nat ensures i in ActiveOps(s.rows, req.worldId.value) <==> There(s, req, i) {
      ThereIsActive(s, req, i);
    }
  }

  /** World creation and deletion, configuration edits and detected crashes: only into an idle world. */
  lemma AloneDecision(s: Store, req: Request, initial: OpenStatus, now: int)
    requires req.opType == CreateWorld || req.opType == DeleteWorld
             || req.opType == ConfigEdit || req.opType == CrashDetected
    requires NewInWorld(s, req)
    ensures var (s', o) := Create(s, req, initial, false, now);
            if forall i: nat :: !There(s, req, i) then o == Inserted(|s.rows|) && Adds(s, s', req, initial, now)
            else o == Conflict && s' == s
  {
    GoesThroughPolicy(s, req, initial, now);
    ArrivesAsAsked(s, req, initial);
    AloneFits(s, req);
    PlainPolicy(s, req, initial, now);
  }

  lemma AloneFits(s: Store, req: Request)
    requires req.opType == CreateWorld || req.opType == DeleteWorld
             || req.opType == ConfigEdit || req.opType == CrashDetected
    requires req.worldId.Some?
    ensures var active := ActiveOps(s.rows, req.worldId.value);
            && FindRepeated(s.rows, req, req.worldId.value).None? && !Waits(s.rows, req, active)
            && (Admits(s.rows, req, active) <==> forall i: nat :: !There(s, req, i))
  {
    forall i: nat ensures i in ActiveOps(s.rows, req.worldId.value) <==> There(s, req, i) {
      ThereIsActive(s, req, i);
    }
  }

  /** What bypasses the policy always goes in: a sync, a request for no world, a caller that says so. */
  lemma BypassDecision(s: Store, req: Request, initial: OpenStatus, allow: bool, now: int)
    requires req.opType == Sync || req.worldId.None? || allow
    requires req.key.Some? ==>
               forall i :: 0 <= i < |s.rows| ==> s.rows[i].opType != req.opType || s.rows[i].key != req.key
    ensures var (s', o) := Create(s, req, initial, allow, now);
            && o == Inserted(|s.rows|)
            && Adds(s, s', req,
                    if exists i: nat :: i < |s.rows| && InFlight(s.rows[i].status)
                                        && (SameScope(s.rows[i], req) || SyncsSame(s.rows[i], req))
                    then Queued else initial, now)
  {
    PlainInsert(s, req, RequestedStatus(s.rows, req, initial), false, now);
    assert forall i :: 0 <= i < |s.rows| ==> (SameArtifact(s.rows[i], req) <==> SyncsSame(s.rows[i], req));
  }

  /** Two syncs that name one artifact. */
  predicate SyncsSame(r: Row, req: Request) {
    && r.opType == Sync && req.opType == Sync
    && req.data.Some? && req.data.value.artifactId.Some? && req.data.value.artifactId.value != ""
    && r.data.Some? && r.data.value.artifactId == req.data.value.artifactId
  }

  /** A request that repeats an idempotency key of its type is answered with the oldest such row. */
  lemma KeyDecision(s: Store, req: Request, initial: OpenStatus, allow: bool, now: int)
    requires req.key.Some?
    requires exists i: nat :: i < |s.rows| && s.rows[i].opType == req.opType && s.rows[i].key == req.key
    ensures var (s', o) := Create(s, req, initial, allow, now);
            && s' == s && o.Replayed? && o.id < |s.rows|
            && s.rows[o.id].opType == req.opType && s.rows[o.id].key == req.key
            && forall i :: 0 <= i < o.id ==> s.rows[i].opType != req.opType || s.rows[i].key != req.key
  {
    ReplayIsOldest(s.rows, req);
  }

  lemma {:induction false} ReplayIsOldest(rows: seq<Row>, req: Request)
    requires req.key.Some?
    ensures forall i :: 0 <= i < |rows| && rows[i].opType == req.opType && rows[i].key == req.key ==>
              FindReplay(rows, req).Some? && FindReplay(rows, req).value <= i
  {
    if rows != [] {
      ReplayIsOldest(rows[..|rows| - 1], req);
    }
  }

  // ----- Claims, transitions and records -----

  /** A claim starts a queued row in a world where no other is created, validating or running; nothing else changes. */
  lemma ClaimDecision(s: Store, id: nat, now: int)
    ensures var s' := Claim(s, id, now);
            if id < |s.rows| && s.rows[id].status == Queued
               && (s.rows[id].worldId.Some? ==>
                     forall j :: 0 <= j < |s.rows| && j != id && s.rows[j].worldId == s.rows[id].worldId ==>
                       var t := s.rows[j].status; t != Created && t != Validating && t != Running)
            then
              var r := s.rows[id];
              && |s'.rows| == |s.rows| && (forall j :: 0 <= j < |s.rows| && j != id ==> s'.rows[j] == s.rows[j])
              && s'.rows[id] == r.(status := Running, updatedAt := now, startedAt := s'.rows[id].startedAt)
              && s'.rows[id].startedAt == (if r.startedAt.Some? then r.startedAt else Some(now))
              && s'.audits == s.audits && s'.notes == s.notes
            else s' == s
  {}

  /** A transition is refused for an unknown or finished row, not persisted before Running, else changes one row. */
  lemma TransitionDecision(s: Store, id: nat, status: Status, change: Change, now: int)
    ensures var done := status == Completed || status == Failed || status == Cancelled || status == TimedOut;
            match Transition(s, id, status, change, now)
            case Err(NotFound) => id >= |s.rows|
            case Err(AlreadyTerminal) =>
              id < |s.rows|
              && var t := s.rows[id].status; t == Completed || t == Failed || t == Cancelled || t == TimedOut
            case Ok(s') =>
              && id < |s.rows| == |s'.rows| && (forall j :: 0 <= j < |s.rows| && j != id ==> s'.rows[j] == s.rows[j])
              && (var t := s.rows[id].status; t == Created || t == Queued || t == Validating || t == Running)
              && (!done && status != Running ==> s' == s)
              && (done || status == Running ==>
                    var r, r' := s.rows[id], s'.rows[id];
                    && r'.status == status && r'.errorCode == change.errorCode && r'.message == change.message
                    && r'.updatedAt == now && r'.finishedAt == (if done then Some(now) else r.finishedAt)
                    && r'.startedAt == (if status == Running && r.startedAt.None? then Some(now) else r.startedAt)
                    && r'.data == (if change.data.Some? then change.data else r.data)
                    && r'.opType == r.opType && r'.worldId == r.worldId
                    && r'.key == r.key && r'.createdAt == r.createdAt)
              && (!done ==> s'.audits == s.audits && s'.notes == s.notes)
  {}

  /** Which ends are announced, and how loudly. */
  lemma RuleInWords(t: OpType, s: Status)
    ensures Rule(t, s).Some? <==>
              || (s == Completed && t != Sync && t != ConfigEdit && t != CreateWorld && t != DeleteWorld)
              || (s == Failed && (t == Backup || t == Restore || t == Sync))
    ensures Rule(t, s).Some? ==>
              Rule(t, s).value.0 == if t == CrashDetected then Critical else if s == Failed then High else Informational
  {}

  /** The announcements' texts. */
  lemma RuleTexts(t: OpType, s: Status)
    requires Rule(t, s).Some?
    ensures Rule(t, s).value.1 ==
            match t
            case Start => "World started."
            case CrashDetected => "World crashed."
            case Backup => if s == Failed then "Backup failed." else "Backup completed."
            case Restore => if s == Failed then "Restore failed." else "Restore completed."
            case Cleanup => "Cleanup completed."
            case Sync => "Sync failed."
            case _ => "World stopped."
  {}

  /** Exactly one position of the list is about the operation. */
  predicate OnceIn(audits: seq<Audit>, a: Audit) {
    && (exists k :: 0 <= k < |audits| && audits[k] == a)
    && (forall j, k :: 0 <= j < k < |audits| ==> !(audits[j].opId == a.opId && audits[k].opId == a.opId))
  }

  lemma {:induction false} AuditedOnce(audits: seq<Audit>, id: nat)
    ensures AuditsFor(audits, id) == [] ==> forall k :: 0 <= k < |audits| ==> audits[k].opId != id
    ensures |AuditsFor(audits, id)| == 1 ==>
              OnceIn(audits, AuditsFor(audits, id)[0]) && AuditsFor(audits, id)[0].opId == id
  {
    if audits != [] {
      var n := |audits| - 1;
      AuditedOnce(audits[..n], id);
      if |AuditsFor(audits, id)| == 1 && audits[n].opId != id {
        var k :| 0 <= k < n && audits[..n][k] == AuditsFor(audits, id)[0];
        assert audits[k] == AuditsFor(audits, id)[0];
      }
    }
  }

  lemma {:induction false} NotedOnce(notes: seq<Note>, id: nat)
    ensures NotesFor(notes, id) == [] ==> forall k :: 0 <= k < |notes| ==> notes[k].opId != id
    ensures |NotesFor(notes, id)| == 1 ==>
              && (exists k :: 0 <= k < |notes| && notes[k] == NotesFor(notes, id)[0])
              && (forall j, k :: 0 <= j < k < |notes| ==> !(notes[j].opId == id && notes[k].opId == id))
  {
    if notes != [] {
      var n := |notes| - 1;
      NotedOnce(notes[..n], id);
      if |NotesFor(notes, id)| == 1 && notes[n].opId != id {
        var k :| 0 <= k < n && notes[..n][k] == NotesFor(notes, id)[0];
        assert notes[k] == NotesFor(notes, id)[0];
      }
    }
  }

  /** In every reachable state a finished operation has one audit of what it ended as, any other id has none. */
  lemma AuditsInWords(notify: bool, cs: seq<Command>, id: nat)
    ensures var s := Run(Empty(notify), cs);
            if id < |s.rows|
               && var t := s.rows[id].status; t == Completed || t == Failed || t == Cancelled || t == TimedOut
            then
              var r := s.rows[id];
              OnceIn(s.audits, Audit(id, r.opType, r.status, r.worldId, r.errorCode, r.message, r.finishedAt))
            else forall k :: 0 <= k < |s.audits| ==> s.audits[k].opId != id
  {
    var s := Run(Empty(notify), cs);
    EveryReachableStateIsRecorded(notify, cs);
    assert AuditLine(s.audits, s.rows, id);
    AuditedOnce(s.audits, id);
  }

  /** A finished operation whose end is announced has one notification that says so, any other id none. */
  predicate NotedExactly(notes: seq<Note>, rows: seq<Row>, notify: bool, id: nat) {
    if notify && id < |rows| && Rule(rows[id].opType, rows[id].status).Some? then
      var (severity, text) := Rule(rows[id].opType, rows[id].status).value;
      && (exists k :: 0 <= k < |notes| && notes[k] == Note(id, rows[id].worldId, severity, text))
      && (forall j, k :: 0 <= j < k < |notes| ==> !(notes[j].opId == id && notes[k].opId == id))
    else forall k :: 0 <= k < |notes| ==> notes[k].opId != id
  }

  lemma NotedAsRecorded(notes: seq<Note>, rows: seq<Row>, notify: bool, id: nat)
    requires NoteLine(notes, rows, notify, id)
    ensures NotedExactly(notes, rows, notify, id)
  {
    NotedOnce(notes, id);
    if id < |rows| {
      RuleInWords(rows[id].opType, rows[id].status);
    }
  }

  lemma NotesInWords(notify: bool, cs: seq<Command>, id: nat)
    ensures NotedExactly(Run(Empty(notify), cs).notes, Run(Empty(notify), cs).rows, notify, id)
  {
    var s := Run(Empty(notify), cs);
    EveryReachableStateIsRecorded(notify, cs);
    RunKeepsSetting(Empty(notify), cs);
    assert NoteLine(s.notes, s.rows, s.notify, id);
    NotedAsRecorded(s.notes, s.rows, notify, id);
  }

  lemma {:induction false} RunKeepsSetting(s: Store, cs: seq<Command>)
    ensures Run(s, cs).notify == s.notify
    decreases |cs|
  {
    if cs != [] {
      RunKeepsSetting(Step(s, cs[0]), cs[1..]);
    }
  }
}
