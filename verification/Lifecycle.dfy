/**
  The guarded lifecycle of a world instance, with its memory of the state a backup started
  from, and what every sequence of accepted transitions keeps.
 */
module Lifecycle {
  import opened Wrappers

  datatype WorldState =
    | Off | Queued | Starting | Running | Stopping | Restoring | BackingUp | Crashed | Faulted | EulaRequired

  datatype Intent = Ordinary | CrashAcknowledgement | ErrorAcknowledgement | EulaAcceptance

  datatype World = World(id: string, state: WorldState, preBackup: Option<WorldState>, deletedAt: Option<int>)

  datatype Refusal = Tombstoned | NotAllowed | NeedsIntent | WrongIntent | WrongBackupExit | Malformed | NotOff

  /** What a world may look like at all. */
  predicate WellFormed(w: World) {
    && w.id != ""
    && (if w.state.BackingUp? then w.preBackup == Some(Off) || w.preBackup == Some(Running) else w.preBackup.None?)
    && (w.deletedAt.Some? ==> w.state.Off?)
  }

  function Allowed(from: WorldState): set<WorldState> {
    match from
    case Off => {Queued, BackingUp, Restoring, EulaRequired}
    case Queued => {Off, Starting}
    case Starting => {Running, Faulted}
    case Running => {Stopping, BackingUp, Crashed}
    case Stopping => {Off}
    case Restoring => {Off, Faulted}
    case BackingUp => {Off, Running, Faulted}
    case Crashed => {Off}
    case Faulted => {Off}
    case EulaRequired => {Off}
  }

  /** The acknowledgement without which a state may not be left for off. */
  function ExitIntent(from: WorldState): Option<Intent> {
    match from
    case Crashed => Some(CrashAcknowledgement)
    case Faulted => Some(ErrorAcknowledgement)
    case EulaRequired => Some(EulaAcceptance)
    case _ => None
  }

  function TransitionWorld(w: World, to: WorldState, intent: Intent): (r: Result<World, Refusal>)
    ensures r.Ok? ==> WellFormed(r.value)
  {
    var needed := if to.Off? then ExitIntent(w.state) else None;
    if w.deletedAt.Some? then Err(Tombstoned)
    else if to != w.state && to !in Allowed(w.state) then Err(NotAllowed)
    else if needed.Some? && Some(intent) != needed then Err(NeedsIntent)
    else if !intent.Ordinary? && Some(intent) != needed then Err(WrongIntent)
    else if w.state.BackingUp? && !to.BackingUp? && Some(to) != w.preBackup && !to.Faulted? then Err(WrongBackupExit)
    else
      var pre := if to.BackingUp? && !w.state.BackingUp? then Some(w.state)
                 else if w.state.BackingUp? && !to.BackingUp? then None
                 else w.preBackup;
      var next := w.(state := to, preBackup := pre);
      if WellFormed(next) then Ok(next) else Err(Malformed)
  }

  function TombstoneWorld(w: World, at: int): (r: Result<World, Refusal>)
    ensures r.Ok? ==> WellFormed(r.value)
  {
    if w.deletedAt.Some? then Err(Tombstoned)
    else if !w.state.Off? then Err(NotOff)
    else
      var next := w.(deletedAt := Some(at));
      if WellFormed(next) then Ok(next) else Err(Malformed)
  }

  // ----- Runs -----

  datatype Request = Transition(to: WorldState, intent: Intent) | Tombstone(at: int)

  function Next(w: World, r: Request): World {
    var result := match r
                  case Transition(to, intent) => TransitionWorld(w, to, intent)
                  case Tombstone(at) => TombstoneWorld(w, at);
    if result.Ok? then result.value else w
  }

  /** The worlds passed through, the first one included; refused requests repeat a world. */
  function Trace(w: World, rs: seq<Request>): (worlds: seq<World>)
    ensures |worlds| == |rs| + 1 && worlds[0] == w
    decreases |rs|
  {
    if rs == [] then [w] else [w] + Trace(Next(w, rs[0]), rs[1..])
  }

  lemma {:induction false} TraceStep(w: World, rs: seq<Request>, k: nat)
    requires k < |rs|
    ensures Trace(w, rs)[k + 1] == Next(Trace(w, rs)[k], rs[k])
    decreases k
  {
    if k > 0 {
      TraceStep(Next(w, rs[0]), rs[1..], k - 1);
    }
  }

  lemma {:induction false} TraceWellFormed(w: World, rs: seq<Request>, k: nat)
    requires WellFormed(w) && k <= |rs|
    ensures WellFormed(Trace(w, rs)[k]) && Trace(w, rs)[k].id == w.id
  {
    if k > 0 {
      TraceWellFormed(w, rs, k - 1);
      TraceStep(w, rs, k - 1);
    }
  }

  /** A fresh world, off and not deleted. */
  predicate Fresh(w: World) { w.id != "" && w.state.Off? && w.preBackup.None? && w.deletedAt.None? }

  /** Since the latest off at or before k, the world was starting at some moment. */
  ghost predicate StartedSinceOff(worlds: seq<World>, k: nat)
    requires k < |worlds|
  {
    exists j :: 0 <= j <= k && worlds[j].state.Starting? && forall m :: j <= m <= k ==> !worlds[m].state.Off?
  }

  /** The backup in progress at k began right after j, from the state it will return to. */
  ghost predicate BackupEntered(worlds: seq<World>, j: nat, k: nat)
    requires k < |worlds|
  {
    && j < k && !worlds[j].state.BackingUp? && worlds[k].preBackup == Some(worlds[j].state)
    && forall m :: j < m <= k ==> worlds[m].state.BackingUp? && worlds[m].preBackup == worlds[k].preBackup
  }

  /** A running world, or one backing up while running, or one stopping, came through starting. */
  predicate Up(w: World) {
    w.state.Running? || w.state.Stopping? || (w.state.BackingUp? && w.preBackup == Some(Running))
  }

  lemma UpStays(worlds: seq<World>, k: nat)
    requires 0 < k < |worlds| && StartedSinceOff(worlds, k - 1) && !worlds[k].state.Off?
    ensures StartedSinceOff(worlds, k)
  {
    var j :| 0 <= j <= k - 1 && worlds[j].state.Starting? && forall m :: j <= m <= k - 1 ==> !worlds[m].state.Off?;
    assert worlds[j].state.Starting?;
  }

  /** A step leads to an up world only from one that is up or starting. */
  lemma UpComesFrom(w: World, r: Request)
    requires WellFormed(w) && Up(Next(w, r))
    ensures Up(w) || w.state.Starting?
  {}

  lemma {:induction false} UpWasStarted(w: World, rs: seq<Request>, k: nat)
    requires Fresh(w) && k <= |rs| && (Up(Trace(w, rs)[k]) || Trace(w, rs)[k].state.Starting?)
    ensures StartedSinceOff(Trace(w, rs), k)
  {
    var worlds := Trace(w, rs);
    if worlds[k].state.Starting? {
      assert forall m :: k <= m <= k ==> !worlds[m].state.Off?;
    } else {
      TraceStep(w, rs, k - 1);
      TraceWellFormed(w, rs, k - 1);
      UpComesFrom(worlds[k - 1], rs[k - 1]);
      UpWasStarted(w, rs, k - 1);
      UpStays(worlds, k);
    }
  }

  lemma {:induction false} BackupRemembersEntry(w: World, rs: seq<Request>, k: nat)
    requires Fresh(w) && k <= |rs| && Trace(w, rs)[k].state.BackingUp?
    ensures exists j: nat :: BackupEntered(Trace(w, rs), j, k)
  {
    var worlds := Trace(w, rs);
    TraceStep(w, rs, k - 1);
    if worlds[k - 1].state.BackingUp? {
      BackupRemembersEntry(w, rs, k - 1);
      var j: nat :| BackupEntered(worlds, j, k - 1);
      assert BackupEntered(worlds, j, k);
    } else {
      assert BackupEntered(worlds, k - 1, k);
    }
  }

  /**
    In every run from a fresh world: the remembered state is set exactly while backing up and
    is the state the backup began in, off or running; a running world was starting since it
    was last off.
   */
  lemma EveryReachableWorld(w: World, rs: seq<Request>, k: nat)
    requires Fresh(w) && k <= |rs|
    ensures var now := Trace(w, rs)[k];
            && (now.preBackup.Some? <==> now.state.BackingUp?)
            && (now.state.BackingUp? ==> exists j: nat :: BackupEntered(Trace(w, rs), j, k))
            && (now.state.Running? ==> StartedSinceOff(Trace(w, rs), k))
  {
    TraceWellFormed(w, rs, k);
    if Trace(w, rs)[k].state.BackingUp? {
      BackupRemembersEntry(w, rs, k);
    }
    if Trace(w, rs)[k].state.Running? {
      UpWasStarted(w, rs, k);
    }
  }

  /** A backup is left only for the state it began in, or into the error state. */
  lemma BackupExits(w: World, rs: seq<Request>, k: nat)
    requires Fresh(w) && k < |rs|
    requires Trace(w, rs)[k].state.BackingUp? && !Trace(w, rs)[k + 1].state.BackingUp?
    ensures exists j: nat ::
              BackupEntered(Trace(w, rs), j, k)
              && (Trace(w, rs)[k + 1].state == Trace(w, rs)[j].state || Trace(w, rs)[k + 1].state.Faulted?)
  {
    BackupRemembersEntry(w, rs, k);
    TraceStep(w, rs, k);
  }

  /** Crashed, error and EULA-required worlds reach off only by their own acknowledgement, and go nowhere else. */
  lemma GuardedExits(w: World, rs: seq<Request>, k: nat)
    requires k < |rs| && ExitIntent(Trace(w, rs)[k].state).Some?
    requires Trace(w, rs)[k + 1].state != Trace(w, rs)[k].state
    ensures Trace(w, rs)[k + 1].state.Off?
    ensures rs[k].Transition? && rs[k].to.Off? && Some(rs[k].intent) == ExitIntent(Trace(w, rs)[k].state)
  {
    TraceStep(w, rs, k);
  }

  /** A tombstone is for ever. */
  lemma {:induction false} TombstoneStays(w: World, rs: seq<Request>, j: nat, k: nat)
    requires WellFormed(w) && j <= k <= |rs| && Trace(w, rs)[j].deletedAt.Some?
    ensures Trace(w, rs)[k] == Trace(w, rs)[j] && Trace(w, rs)[k].state.Off?
    decreases k - j
  {
    TraceWellFormed(w, rs, j);
    if j < k {
      TraceStep(w, rs, j);
      TombstoneStays(w, rs, j + 1, k);
    }
  }

  /**
    Exactly which requests a well-formed world accepts: staying put without an intent that
    belongs elsewhere, or an allowed move with the intent its source demands, back to the
    remembered state when a backup ends well.
   */
  lemma AcceptedExactly(w: World, to: WorldState, intent: Intent)
    requires WellFormed(w)
    ensures TransitionWorld(w, to, intent).Ok? <==>
              && w.deletedAt.None?
              && (to == w.state || to in Allowed(w.state))
              && intent == (if to.Off? && ExitIntent(w.state).Some? then ExitIntent(w.state).value else Ordinary)
              && (w.state.BackingUp? ==> to.BackingUp? || to.Faulted? || Some(to) == w.preBackup)
  {}

  /** The table by target: from where, and with what intent, a world that is not deleted gets to another state. */
  lemma ReachedFrom(w: World, to: WorldState, intent: Intent)
    requires WellFormed(w) && w.deletedAt.None? && to != w.state
    ensures TransitionWorld(w, to, intent).Ok? <==>
              match to
              case Off =>
                if w.state == Crashed then intent == CrashAcknowledgement
                else if w.state == Faulted then intent == ErrorAcknowledgement
                else if w.state == EulaRequired then intent == EulaAcceptance
                else intent == Ordinary
                     && (w.state == Queued || w.state == Stopping || w.state == Restoring
                         || (w.state == BackingUp && w.preBackup == Some(Off)))
              case Running =>
                intent == Ordinary && (w.state == Starting || (w.state == BackingUp && w.preBackup == Some(Running)))
              case Faulted =>
                intent == Ordinary && (w.state == Starting || w.state == Restoring || w.state == BackingUp)
              case BackingUp => intent == Ordinary && (w.state == Off || w.state == Running)
              case Starting => intent == Ordinary && w.state == Queued
              case Stopping => intent == Ordinary && w.state == Running
              case Crashed => intent == Ordinary && w.state == Running
              case _ => intent == Ordinary && w.state == Off
  {}

  /** What an accepted request makes of a world: only its state, memory of a backup, or deletion time changes. */
  lemma AcceptedWorld(w: World, to: WorldState, intent: Intent, at: int)
    requires WellFormed(w)
    ensures TransitionWorld(w, to, intent).Ok? ==>
              TransitionWorld(w, to, intent).value
              == World(w.id, to,
                       if to != BackingUp then None else if w.state == BackingUp then w.preBackup else Some(w.state),
                       None)
    ensures to == w.state ==> (TransitionWorld(w, to, intent).Ok? <==> w.deletedAt.None? && intent == Ordinary)
    ensures w.deletedAt.Some? ==> TransitionWorld(w, to, intent) == Err(Tombstoned)
    ensures TombstoneWorld(w, at)
            == if w.deletedAt.Some? then Err(Tombstoned)
               else if w.state != Off then Err(NotOff)
               else Ok(World(w.id, Off, None, Some(at)))
  {}

  lemma WellFormedInWords(w: World)
    ensures WellFormed(w) <==>
              && |w.id| > 0
              && (w.state == BackingUp <==> w.preBackup != None)
              && (w.preBackup != None ==> w.preBackup == Some(Off) || w.preBackup == Some(Running))
              && (w.deletedAt != None ==> w.state == Off)
  {}
}
