/**
  What the operation engine promises, stated on values.

  A `Store` is the durable state: the operation rows in insertion order (an operation id is
  a row's position, because rows are never removed), the terminal audits and the terminal
  notifications.  `policed` and `claims` are history: the rows whose creation went through
  the conflict policy, and the ids handed out by successful claims, oldest first.

  Admission is stated here as a symmetric compatibility matrix.  `OperationService`, in its
  own module, takes the engine's actual branches and is proved against it.
 */
module OperationModel {
  import opened Wrappers

  datatype OpType =
    | CreateWorld | Start | Stop | Kill | Backup | Restore | Cleanup | Sync
    | ConfigEdit | CrashDetected | DeleteWorld

  datatype Status = Created | Queued | Validating | Running | Completed | Failed | Cancelled | TimedOut

  predicate InFlight(s: Status) { s.Created? || s.Queued? || s.Validating? || s.Running? }

  predicate Terminal(s: Status) { !InFlight(s) }

  /** The statuses that hold a world's lock against a claim. */
  predicate Active(s: Status) { s.Created? || s.Validating? || s.Running? }

  type OpenStatus = s: Status | InFlight(s) witness Queued

  /** The keys of an operation's JSON payload that the engine itself reads. */
  datatype Payload = Payload(scope: Option<string>, artifactId: Option<string>)

  datatype Row = Row(
    opType: OpType, worldId: Option<string>, key: Option<string>, status: Status,
    startedAt: Option<int>, finishedAt: Option<int>, errorCode: Option<string>,
    message: Option<string>, data: Option<Payload>, createdAt: int, updatedAt: int)

  datatype Audit = Audit(
    opId: nat, opType: OpType, status: Status, worldId: Option<string>,
    errorCode: Option<string>, message: Option<string>, at: Option<int>)

  datatype Severity = Critical | High | Informational

  datatype Note = Note(opId: nat, worldId: Option<string>, severity: Severity, text: string)

  datatype Request = Request(opType: OpType, worldId: Option<string>, key: Option<string>, data: Option<Payload>)

  datatype Store = Store(
    notify: bool, rows: seq<Row>, audits: seq<Audit>, notes: seq<Note>,
    policed: set<nat>, claims: seq<nat>)

  // ----- Admission -----

  predicate Runtime(t: OpType) { t.Start? || t.Stop? || t.Kill? }

  /** Which two operations of one world may be in flight together. */
  predicate Compatible(a: OpType, b: OpType) {
    || (a == b && (a.Backup? || a.Restore? || a.Cleanup?))
    || (Runtime(a) && (b.Backup? || b.Cleanup?))
    || (Runtime(b) && (a.Backup? || a.Cleanup?))
  }

  predicate InWorld(r: Row, w: string) { r.worldId == Some(w) && InFlight(r.status) }

  /** The in-flight operations of a world. */
  function ActiveOps(rows: seq<Row>, w: string): set<nat> {
    set i: nat | i < |rows| && InWorld(rows[i], w)
  }

  /** A cleanup's scope: the one it names, else its world, else none. */
  function ScopeOf(worldId: Option<string>, data: Option<Payload>): Option<string> {
    if data.Some? && data.value.scope.Some? && data.value.scope.value != "" then data.value.scope
    else if worldId.Some? then Some("world:" + worldId.value)
    else None
  }

  function ArtifactOf(data: Option<Payload>): Option<string> {
    if data.Some? && data.value.artifactId.Some? && data.value.artifactId.value != ""
    then data.value.artifactId else None
  }

  predicate SameScope(r: Row, req: Request) {
    && r.opType == Cleanup && req.opType == Cleanup
    && ScopeOf(req.worldId, req.data).Some?
    && ScopeOf(r.worldId, r.data) == ScopeOf(req.worldId, req.data)
  }

  predicate SameArtifact(r: Row, req: Request) {
    && r.opType == Sync && req.opType == Sync
    && ArtifactOf(req.data).Some?
    && ArtifactOf(r.data) == ArtifactOf(req.data)
  }

  /** An in-flight sync of the artifact, or cleanup of the scope, anywhere makes the request queue. */
  function RequestedStatus(rows: seq<Row>, req: Request, initial: OpenStatus): OpenStatus {
    if exists i :: 0 <= i < |rows| && InFlight(rows[i].status)
                   && (SameArtifact(rows[i], req) || SameScope(rows[i], req))
    then Queued else initial
  }

  predicate Known(rows: seq<Row>, ids: set<nat>) {
    forall i :: i in ids ==> i < |rows|
  }

  function QueuedDeletes(rows: seq<Row>, ids: set<nat>): set<nat>
    requires Known(rows, ids)
  {
    set i | i in ids && rows[i].opType == DeleteWorld && rows[i].status == Queued
  }

  /** The operations a request takes off the world: Kill takes Stops, Restore takes queued deletes. */
  function Victims(rows: seq<Row>, req: Request, active: set<nat>): (vs: set<nat>)
    requires Known(rows, active)
    ensures vs <= active
  {
    if req.opType == Kill && forall i :: i in active ==> rows[i].opType == Stop then active
    else if req.opType == Restore then QueuedDeletes(rows, active)
    else {}
  }

  /** Admission: everything that stays is compatible, or the request is a repeated cleanup of one scope. */
  predicate Admits(rows: seq<Row>, req: Request, active: set<nat>)
    requires Known(rows, active)
  {
    || (forall i :: i in active && i !in Victims(rows, req, active) ==> Compatible(rows[i].opType, req.opType))
    || (exists i :: i in active && SameScope(rows[i], req))
  }

  /** What an admitted request has to wait for. */
  predicate WaitsFor(r: Row, req: Request) {
    || ((req.opType.Backup? || req.opType.Restore?) && r.opType == req.opType)
    || (req.opType == Stop && r.opType == Backup)
    || SameScope(r, req)
  }

  predicate Waits(rows: seq<Row>, req: Request, active: set<nat>)
    requires Known(rows, active)
  {
    exists i :: i in active && WaitsFor(rows[i], req)
  }

  // ----- The atomic steps -----

  function CancelRow(r: Row, now: int, code: string): Row {
    if InFlight(r.status)
    then r.(status := Cancelled, finishedAt := Some(now), errorCode := Some(code), updatedAt := now)
    else r
  }

  function SupersededBy(req: Request): string {
    if req.opType == Kill then "superseded_by_kill" else "superseded_by_restore"
  }

  function CancelRows(rows: seq<Row>, victims: set<nat>, now: int, code: string): (out: seq<Row>)
    ensures |out| == |rows|
    ensures forall i :: 0 <= i < |rows| ==>
              out[i] == if i in victims then CancelRow(rows[i], now, code) else rows[i]
  {
    seq(|rows|, i requires 0 <= i < |rows| => if i in victims then CancelRow(rows[i], now, code) else rows[i])
  }

  function AuditOf(id: nat, r: Row): Audit {
    Audit(id, r.opType, r.status, r.worldId, r.errorCode, r.message, r.finishedAt)
  }

  /** The audits of the given rows, oldest row first. */
  function AuditsOf(rows: seq<Row>, ids: set<nat>): seq<Audit> {
    if rows == [] then []
    else
      var n := |rows| - 1;
      AuditsOf(rows[..n], ids) + if n in ids then [AuditOf(n, rows[n])] else []
  }

  function NewRow(req: Request, status: Status, now: int): Row {
    Row(req.opType, req.worldId, req.key, status, if status == Running then Some(now) else None,
        None, None, None, req.data, now, now)
  }

  predicate Replays(r: Row, req: Request) {
    req.key.Some? && r.opType == req.opType && r.key == req.key
  }

  /** The oldest row that carries the request's idempotency key. */
  function FindReplay(rows: seq<Row>, req: Request): (r: Option<nat>)
    ensures r.Some? ==> r.value < |rows| && Replays(rows[r.value], req)
    ensures r.None? ==> forall i :: 0 <= i < |rows| ==> !Replays(rows[i], req)
  {
    if rows == [] then None
    else
      var n := |rows| - 1;
      var earlier := FindReplay(rows[..n], req);
      if earlier.Some? then earlier else if Replays(rows[n], req) then Some(n) else None
  }

  /** The oldest in-flight Start or Stop that a repeated Start or Stop is answered with. */
  function FindRepeated(rows: seq<Row>, req: Request, w: string): (r: Option<nat>)
    ensures r.Some? ==> r.value < |rows| && InWorld(rows[r.value], w) && rows[r.value].opType == req.opType
    ensures (req.opType.Start? || req.opType.Stop?) && r.None? ==>
              forall i :: 0 <= i < |rows| && InWorld(rows[i], w) ==> rows[i].opType != req.opType
  {
    if rows == [] || !(req.opType.Start? || req.opType.Stop?) then None
    else
      var n := |rows| - 1;
      var earlier := FindRepeated(rows[..n], req, w);
      if earlier.Some? then earlier
      else if InWorld(rows[n], w) && rows[n].opType == req.opType then Some(n)
      else None
  }

  datatype Outcome = Replayed(id: nat) | Inserted(id: nat) | Conflict

  /** Whether a request goes through the conflict policy at all. */
  predicate Policed(req: Request, allowConflict: bool) {
    req.worldId.Some? && !allowConflict && req.opType != Sync
  }

  function Insert(s: Store, req: Request, status: OpenStatus, victims: set<nat>, policed: bool, now: int): Store {
    var rows := CancelRows(s.rows, victims, now, SupersededBy(req));
    s.(rows := rows + [NewRow(req, status, now)],
       audits := s.audits + AuditsOf(rows, victims),
       policed := s.policed + if policed then {|s.rows|} else {})
  }

  /** What the conflict policy does with a request: replay, refuse with nothing changed, or insert with preemptions. */
  function CreatePoliced(s: Store, req: Request, status: OpenStatus, now: int): (Store, Outcome)
    requires req.worldId.Some?
  {
    var active := ActiveOps(s.rows, req.worldId.value);
    var repeated := FindRepeated(s.rows, req, req.worldId.value);
    if repeated.Some? then (s, Replayed(repeated.value))
    else if !Admits(s.rows, req, active) then (s, Conflict)
    else
      (Insert(s, req, if Waits(s.rows, req, active) then Queued else status, Victims(s.rows, req, active), true, now),
       Inserted(|s.rows|))
  }

  /** One create transaction. */
  function Create(s: Store, req: Request, initial: OpenStatus, allowConflict: bool, now: int): (Store, Outcome) {
    var replay := FindReplay(s.rows, req);
    var status := RequestedStatus(s.rows, req, initial);
    if replay.Some? then (s, Replayed(replay.value))
    else if Policed(req, allowConflict) then CreatePoliced(s, req, status, now)
    else (Insert(s, req, status, {}, false, now), Inserted(|s.rows|))
  }

  predicate Claimable(rows: seq<Row>, id: nat) {
    && id < |rows| && rows[id].status == Queued
    && (rows[id].worldId.Some? ==>
          forall j :: 0 <= j < |rows| && j != id && rows[j].worldId == rows[id].worldId ==> !Active(rows[j].status))
  }

  /** Start a queued row, unless another row of its world is active. */
  function Claim(s: Store, id: nat, now: int): Store {
    if !Claimable(s.rows, id) then s
    else
      var r := s.rows[id];
      s.(rows := s.rows[id := r.(status := Running, updatedAt := now,
                                 startedAt := if r.startedAt.Some? then r.startedAt else Some(now))],
         claims := s.claims + [id])
  }

  datatype Change = Change(errorCode: Option<string>, message: Option<string>, data: Option<Payload>)

  datatype StateError = NotFound | AlreadyTerminal

  function Moved(r: Row, status: Status, change: Change, now: int): Row {
    r.(status := status,
       startedAt := if status == Running && r.startedAt.None? then Some(now) else r.startedAt,
       finishedAt := if Terminal(status) then Some(now) else r.finishedAt,
       errorCode := change.errorCode, message := change.message,
       data := if change.data.Some? then change.data else r.data, updatedAt := now)
  }

  /** The (type, status) pairs that are worth a notification, with severity and text. */
  function Rule(t: OpType, s: Status): Option<(Severity, string)> {
    match (t, s)
    case (Start, Completed) => Some((Informational, "World started."))
    case (Stop, Completed) => Some((Informational, "World stopped."))
    case (Kill, Completed) => Some((Informational, "World stopped."))
    case (CrashDetected, Completed) => Some((Critical, "World crashed."))
    case (Backup, Completed) => Some((Informational, "Backup completed."))
    case (Backup, Failed) => Some((High, "Backup failed."))
    case (Restore, Completed) => Some((Informational, "Restore completed."))
    case (Restore, Failed) => Some((High, "Restore failed."))
    case (Cleanup, Completed) => Some((Informational, "Cleanup completed."))
    case (Sync, Failed) => Some((High, "Sync failed."))
    case _ => None
  }

  /** The notifications a row ought to have once it has reached its status. */
  function NotesOf(id: nat, r: Row): seq<Note> {
    var rule := Rule(r.opType, r.status);
    if rule.None? then [] else [Note(id, r.worldId, rule.value.0, rule.value.1)]
  }

  /** Publishing is skipped when the operation already has a notification. */
  function Publish(notes: seq<Note>, id: nat, r: Row): seq<Note> {
    if exists k :: 0 <= k < |notes| && notes[k].opId == id then notes else notes + NotesOf(id, r)
  }

  /** Only Running and terminal statuses are persisted; a terminal one writes its audit and notification. */
  function Transition(s: Store, id: nat, status: Status, change: Change, now: int): Result<Store, StateError> {
    if id >= |s.rows| then Err(NotFound)
    else if Terminal(s.rows[id].status) then Err(AlreadyTerminal)
    else if InFlight(status) && status != Running then Ok(s)
    else
      var r := Moved(s.rows[id], status, change, now);
      Ok(s.(rows := s.rows[id := r],
            audits := s.audits + if Terminal(status) then [AuditOf(id, r)] else [],
            notes := if Terminal(status) && s.notify then Publish(s.notes, id, r) else s.notes))
  }

  // ----- Runs -----

  datatype Command =
    | DoCreate(req: Request, initial: OpenStatus, allowConflict: bool, now: int)
    | DoClaim(id: nat, now: int)
    | DoTransition(id: nat, status: Status, change: Change, now: int)

  function Step(s: Store, c: Command): Store {
    match c
    case DoCreate(req, initial, allowConflict, now) => Create(s, req, initial, allowConflict, now).0
    case DoClaim(id, now) => Claim(s, id, now)
    case DoTransition(id, status, change, now) =>
      var r := Transition(s, id, status, change, now);
      if r.Ok? then r.value else s
  }

  function Run(s: Store, cs: seq<Command>): Store
    decreases |cs|
  {
    if cs == [] then s else Run(Step(s, cs[0]), cs[1..])
  }

  function Empty(notify: bool): Store { Store(notify, [], [], [], {}, []) }
}
