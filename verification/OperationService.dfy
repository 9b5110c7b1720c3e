/**
  The operation engine as it is written: tables updated inside transactions, the conflict
  policy as a cascade of branches, and a rollback that puts the tables back.  Every method
  is proved to take the step `OperationModel` describes.
 */
module OperationService {
  import opened Wrappers
  import opened OperationModel

  const RUNTIME_TYPES: set<OpType> := {Start, Stop, Kill}
  const SINGLE_FLIGHT_TYPES: set<OpType> := {Backup, Restore, Cleanup}

  class OperationService {
    const notify: bool
    var rows: seq<Row>
    var audits: seq<Audit>
    var notes: seq<Note>
    ghost var policed: set<nat>
    ghost var claims: seq<nat>

    ghost function State(): Store
      reads this
    {
      Store(notify, rows, audits, notes, policed, claims)
    }

    constructor (notify: bool)
      ensures State() == Empty(notify)
    {
      this.notify := notify;
      rows, audits, notes, policed, claims := [], [], [], {}, [];
    }

    /** Cancels each victim in turn; the rows it leaves are the ones audited later. */
    method CancelAll(victims: set<nat>, now: int, code: string)
      modifies this`rows
      ensures rows == CancelRows(old(rows), victims, now, code)
    {
      var k := 0;
      while k < |rows|
        invariant 0 <= k <= |rows| == |old(rows)|
        invariant rows[..k] == CancelRows(old(rows), victims, now, code)[..k]
        invariant rows[k..] == old(rows)[k..]
      {
        if k in victims {
          rows := rows[k := CancelRow(rows[k], now, code)];
        }
        k := k + 1;
      }
    }

    /**
      The conflict policy, branch by branch.  Cancellations happen in the table at once, so
      a refusal after one leaves the table changed until the caller rolls back.
     */
    method ApplyConflictPolicy(req: Request, active: set<nat>, status: OpenStatus, now: int)
      returns (admitted: bool, newStatus: OpenStatus, terminal: set<nat>)
      requires Known(rows, active)
      modifies this`rows
      ensures admitted <==> Admits(old(rows), req, active)
      ensures admitted ==>
                && terminal == Victims(old(rows), req, active)
                && newStatus == (if Waits(old(rows), req, active) then Queued else status)
                && rows == CancelRows(old(rows), terminal, now, SupersededBy(req))
    {
      assert CancelRows(rows, {}, now, SupersededBy(req)) == rows;
      if active == {} {
        return true, status, {};
      }
      var types := set i | i in active :: rows[i].opType;
      SameTypeRefused(rows, req, active, types);
      if req.opType in types && req.opType !in SINGLE_FLIGHT_TYPES {
        return false, status, {};
      }
      if req.opType == Kill {
        KillTakesStops(rows, req, active, types);
        if types == {Stop} {
          CancelAll(active, now, "superseded_by_kill");
          return true, status, active;
        }
      }
      if req.opType == Restore {
        var deletes := QueuedDeletes(rows, active);
        if deletes != {} {
          var rest := set i | i in active - deletes :: rows[i].opType;
          RestoreTakesDeletes(rows, req, active, deletes, rest);
          CancelAll(deletes, now, "superseded_by_restore");
          if rest == {} {
            return true, status, deletes;
          }
          if rest == {Restore} {
            return true, Queued, deletes;
          }
          return false, status, deletes;
        }
      }
      var matching := exists i :: i in active && SameScope(rows[i], req);
      MatrixByTypes(rows, req, active, types, matching);
      var decided, decidedStatus := DecideByTypes(req.opType, types, matching, status);
      return decided, decidedStatus, {};
    }

    lemma SameTypeRefused(rows: seq<Row>, req: Request, active: set<nat>, types: set<OpType>)
      requires Known(rows, active) && types == set i | i in active :: rows[i].opType
      ensures active != {} ==> types != {}
      ensures req.opType in types && req.opType !in SINGLE_FLIGHT_TYPES ==> !Admits(rows, req, active)
    {
      if active != {} {
        var i :| i in active;
        assert rows[i].opType in types;
      }
    }

    lemma KillTakesStops(rows: seq<Row>, req: Request, active: set<nat>, types: set<OpType>)
      requires req.opType == Kill && Known(rows, active) && types == set i | i in active :: rows[i].opType
      requires active != {}
      ensures types != {Stop} ==> Victims(rows, req, active) == {}
      ensures types == {Stop} ==>
                Victims(rows, req, active) == active && Admits(rows, req, active) && !Waits(rows, req, active)
    {
      assert forall i :: i in active ==> rows[i].opType in types;
      if forall i :: i in active ==> rows[i].opType == Stop {
        var i :| i in active;
        assert types == {Stop};
      }
    }

    lemma RestoreTakesDeletes(rows: seq<Row>, req: Request, active: set<nat>, deletes: set<nat>, rest: set<OpType>)
      requires req.opType == Restore && Known(rows, active) && deletes == QueuedDeletes(rows, active)
      requires rest == set i | i in active - deletes :: rows[i].opType
      ensures Admits(rows, req, active) <==> rest == {} || rest == {Restore}
      ensures Admits(rows, req, active) ==> (Waits(rows, req, active) <==> rest != {})
    {
      assert forall i :: i in active - deletes ==> rows[i].opType in rest;
    }

    /** Without a preemption, admission and waiting depend on the types in flight alone. */
    lemma MatrixByTypes(rows: seq<Row>, req: Request, active: set<nat>, types: set<OpType>, matching: bool)
      requires Known(rows, active) && Victims(rows, req, active) == {}
      requires types == set i | i in active :: rows[i].opType
      requires matching == exists i :: i in active && SameScope(rows[i], req)
      ensures Admits(rows, req, active) <==> matching || forall t :: t in types ==> Compatible(t, req.opType)
      ensures Waits(rows, req, active) <==> MustWait(req.opType, types, matching)
    {}

    /** The branches that look only at the set of types in flight. */
    method DecideByTypes(op: OpType, types: set<OpType>, matchingCleanup: bool, status: OpenStatus)
      returns (admitted: bool, newStatus: OpenStatus)
      requires op in types ==> op in SINGLE_FLIGHT_TYPES
      requires matchingCleanup ==> op == Cleanup
      requires types != {}
      ensures admitted <==> matchingCleanup || forall t :: t in types ==> Compatible(t, op)
      ensures admitted ==> newStatus == if MustWait(op, types, matchingCleanup) then Queued else status
    {
      if op == Backup {
        var conflicting := types - RUNTIME_TYPES;
        if conflicting - {Backup} != {} {
          var t :| t in conflicting - {Backup};
          return false, status;
        }
        assert forall t :: t in types ==> t in RUNTIME_TYPES || t in conflicting - {Backup} || t == Backup;
        if Backup in types {
          return true, Queued;
        }
        return true, status;
      }
      if op == Restore && types == {Restore} {
        return true, Queued;
      }
      if op == Cleanup {
        if matchingCleanup {
          return true, Queued;
        }
        var conflicting := types - RUNTIME_TYPES - {Cleanup};
        if conflicting != {} {
          var t :| t in conflicting;
          return false, status;
        }
        assert forall t :: t in types ==> t in RUNTIME_TYPES || t in conflicting || t == Cleanup;
        return true, status;
      }
      if op == Stop {
        if Backup in types {
          if types - {Backup, Cleanup} != {} {
            var t :| t in types - {Backup, Cleanup};
            return false, status;
          }
          assert forall t :: t in types ==> t in types - {Backup, Cleanup} || t in {Backup, Cleanup};
          return true, Queued;
        }
        if types <= {Cleanup} {
          return true, status;
        }
      }
      if op in {Start, Kill} && types <= {Backup, Cleanup} {
        return true, status;
      }
      return false, status;
    }

    predicate MustWait(op: OpType, types: set<OpType>, matchingCleanup: bool) {
      || (op in {Backup, Restore} && op in types)
      || (op == Stop && Backup in types)
      || matchingCleanup
    }

    /** Appends the audit of each operation that has just been cancelled. */
    method WriteTerminalAudits(terminal: set<nat>)
      modifies this`audits
      ensures audits == old(audits) + AuditsOf(rows, terminal)
    {
      var k := 0;
      while k < |rows|
        invariant 0 <= k <= |rows|
        invariant audits == old(audits) + AuditsOf(rows[..k], terminal)
      {
        assert rows[..k + 1][..k] == rows[..k];
        if k in terminal {
          audits := audits + [AuditOf(k, rows[k])];
        }
        k := k + 1;
      }
      assert rows[..k] == rows;
    }

    /** Queues behind an in-flight sync of the artifact or cleanup of the scope. */
    method StatusOnArrival(req: Request, initial: OpenStatus) returns (status: OpenStatus)
      ensures status == RequestedStatus(rows, req, initial)
    {
      status := initial;
      if req.opType == Sync && ArtifactOf(req.data).Some? {
        if exists i :: 0 <= i < |rows| && InFlight(rows[i].status) && SameArtifact(rows[i], req) {
          status := Queued;
        }
      }
      if req.opType == Cleanup && ScopeOf(req.worldId, req.data).Some? {
        if exists i :: 0 <= i < |rows| && InFlight(rows[i].status) && SameScope(rows[i], req) {
          status := Queued;
        }
      }
    }

    method InsertRow(req: Request, status: OpenStatus, terminal: set<nat>, now: int)
      requires Known(rows, terminal)
      modifies this`rows, this`audits
      ensures rows == old(rows) + [NewRow(req, status, now)]
      ensures audits == old(audits) + AuditsOf(old(rows), terminal)
    {
      rows := rows + [NewRow(req, status, now)];
      assert rows[..|old(rows)|] == old(rows);
      WriteTerminalAudits(terminal);
    }

    /** One create transaction; a refusal rolls back every preemptive cancel. */
    method CreateWithReplay(req: Request, initial: OpenStatus, allowConflict: bool, now: int)
      returns (outcome: Outcome)
      modifies this
      ensures State() == Create(old(State()), req, initial, allowConflict, now).0
      ensures outcome == Create(old(State()), req, initial, allowConflict, now).1
      ensures !outcome.Inserted? ==> State() == old(State())
    {
      var existing := FindReplay(rows, req);
      if existing.Some? {
        return Replayed(existing.value);
      }
      var status := StatusOnArrival(req, initial);
      if req.worldId.Some? && !allowConflict && req.opType != Sync {
        outcome := CreateUnderPolicy(req, status, now);
        return;
      }
      assert CancelRows(rows, {}, now, SupersededBy(req)) == rows;
      policed := policed + {};
      InsertRow(req, status, {}, now);
      return Inserted(|rows| - 1);
    }

    /** The rest of the transaction for a request that has to pass the conflict policy. */
    method CreateUnderPolicy(req: Request, status: OpenStatus, now: int) returns (outcome: Outcome)
      requires req.worldId.Some?
      modifies this
      ensures State() == CreatePoliced(old(State()), req, status, now).0
      ensures outcome == CreatePoliced(old(State()), req, status, now).1
    {
      var snapshot := rows;
      var active := ActiveOps(rows, req.worldId.value);
      var repeated := FindRepeated(rows, req, req.worldId.value);
      if repeated.Some? {
        return Replayed(repeated.value);
      }
      var admitted, newStatus, terminal := ApplyConflictPolicy(req, active, status, now);
      if !admitted {
        rows := snapshot;
        return Conflict;
      }
      policed := policed + {|rows|};
      InsertRow(req, newStatus, terminal, now);
      return Inserted(|rows| - 1);
    }

    /** Hand a queued operation to one dispatcher. */
    method ClaimQueued(id: nat, now: int) returns (claimed: Option<Row>)
      modifies this
      ensures State() == Claim(old(State()), id, now)
      ensures claimed == if Claimable(old(rows), id) then Some(rows[id]) else None
    {
      if id >= |rows| || rows[id].status != Queued {
        return None;
      }
      var current := rows[id];
      if current.worldId.Some? {
        if exists j :: 0 <= j < |rows| && j != id && rows[j].worldId == current.worldId && Active(rows[j].status) {
          return None;
        }
      }
      rows := rows[id := current.(status := Running, updatedAt := now,
                                  startedAt := if current.startedAt.Some? then current.startedAt else Some(now))];
      claims := claims + [id];
      return Some(rows[id]);
    }

    /** Persist Running and terminal statuses; a terminal one is audited and announced with it. */
    method TransitionTo(id: nat, status: Status, change: Change, now: int) returns (r: Result<Row, StateError>)
      modifies this
      ensures Transition(old(State()), id, status, change, now).Err? ==> State() == old(State())
      ensures match Transition(old(State()), id, status, change, now)
              case Err(e) => r == Err(e)
              case Ok(s) => State() == s && id < |rows| && r == Ok(rows[id])
    {
      if id >= |rows| {
        return Err(NotFound);
      }
      var current := rows[id];
      if Terminal(current.status) {
        return Err(AlreadyTerminal);
      }
      if status != Running && !Terminal(status) {
        return Ok(current);
      }
      var startedAt := current.startedAt;
      if status == Running && startedAt.None? {
        startedAt := Some(now);
      }
      var finishedAt := if Terminal(status) then Some(now) else current.finishedAt;
      var data := if change.data.Some? then change.data else current.data;
      rows := rows[id := current.(status := status, startedAt := startedAt, finishedAt := finishedAt,
                                  errorCode := change.errorCode, message := change.message,
                                  data := data, updatedAt := now)];
      if Terminal(status) {
        audits := audits + [AuditOf(id, rows[id])];
        if notify {
          PublishTerminalOperation(id);
        }
      }
      return Ok(rows[id]);
    }

    /** At most one notification per operation, and only for the pairs that have a rule. */
    method PublishTerminalOperation(id: nat)
      requires id < |rows| && Terminal(rows[id].status)
      modifies this`notes
      ensures notes == Publish(old(notes), id, rows[id])
    {
      var rule := Rule(rows[id].opType, rows[id].status);
      if rule.None? {
        return;
      }
      if exists k :: 0 <= k < |notes| && notes[k].opId == id {
        return;
      }
      notes := notes + [Note(id, rows[id].worldId, rule.value.0, rule.value.1)];
    }
  }
}
