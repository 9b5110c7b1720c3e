/**
  Restoring a world from a backup artifact: validate, back up, stage, switch directories,
  restart, and revert when the restart fails.

  Directories hold opaque contents.  An artifact holds what archiving keeps of a content
  (`archived`: not everything, since temporary and escaping entries are left out), and
  extracting gives back what the artifact holds.  Which steps fail is an input.  A move that
  fails leaves its source in place and may leave something unfinished at its destination.
  `seen` is every state of the directories between two steps, which is what a crash between
  steps leaves; a crash inside a move leaves what a failed move leaves, which `MoveKeeps` covers.
 */
module Restore {
  import opened Wrappers

  type Content = int

  /** The world's directory, the staging directory, and archived world directories under fresh names. */
  datatype Dir = World | Staging | Archive(n: nat)

  type Dirs = map<Dir, Content>

  datatype Artifact = Artifact(content: Content, suspect: bool)

  datatype WorldState = Off | Running | Faulted | Other

  datatype HistoryOutcome = Succeeded | Reverted | Failed

  datatype History = History(source: nat, preRestore: nat, outcome: HistoryOutcome, rollbackOf: Option<nat>)

  /** How a move ends: done, or failed with nothing or something unfinished at the destination. */
  datatype MoveFault = Done | Failed(unfinished: Option<Content>)

  datatype SwitchFaults = SwitchFaults(archiveMove: MoveFault, stagingMove: MoveFault, putBack: MoveFault)

  /**
    How staging an artifact ends: its file may not validate, or the old staging may not go or
    the archive not extract, leaving something behind; only a malformed archive is blamed.
   */
  datatype StageFault = Staged | Unreadable | NotExtracted(unfinished: Option<Content>, malformed: bool)

  predicate Blames(fault: StageFault) {
    fault.Unreadable? || (fault.NotExtracted? && fault.malformed)
  }

  datatype Faults = Faults(validates: bool, backsUp: bool, stage: StageFault, switch: SwitchFaults,
                           restarts: bool, revertStage: StageFault, revertSwitch: SwitchFaults)

  datatype Outcome =
    | WorldNotOff | BadArtifact | BackupFailed | StageFailed | SwitchFailed
    | Success | RevertedOutcome | RevertFailed

  /** The restore got as far as registering the pre-restore backup. */
  predicate PastBackup(outcome: Outcome) {
    !(outcome.WorldNotOff? || outcome.BadArtifact? || outcome.BackupFailed?)
  }

  /** Some directory other than staging, so never a copy that is about to be thrown away. */
  predicate Kept(d: Dirs, c: Content) {
    exists dir :: dir in d && dir != Staging && d[dir] == c
  }

  /** The archived world directories of the first are still there in the second. */
  predicate ArchivesStay(d: Dirs, d': Dirs) {
    forall dir: Dir :: dir.Archive? && dir in d ==> dir in d' && d'[dir] == d[dir]
  }

  datatype Placement = Placed | NotStaged | NotSwitched

  /** Flagging artifacts suspect changes no content. */
  predicate SameContents(a: seq<Artifact>, b: seq<Artifact>) {
    |a| == |b| && forall k :: 0 <= k < |a| ==> a[k].content == b[k].content
  }

  function MoveResult(d: Dirs, src: Dir, dst: Dir, fault: MoveFault): Dirs
    requires src in d
  {
    match fault
    case Done => (d - {src})[dst := d[src]]
    case Failed(unfinished) => if unfinished.Some? then d[dst := unfinished.value] else d
  }

  /** The table after flagging one artifact as suspect. */
  function Flagged(a: seq<Artifact>, id: nat): (a': seq<Artifact>)
    ensures SameContents(a, a')
    ensures forall k :: 0 <= k < |a| && k != id ==> a'[k] == a[k]
    ensures id < |a| ==> a'[id].suspect
  {
    if id < |a| then a[id := a[id].(suspect := true)] else a
  }

  predicate Switches(faults: SwitchFaults) {
    faults.archiveMove.Done? && faults.stagingMove.Done?
  }

  /** Which step decides how a restore ends. */
  function OutcomeOf(off: bool, known: bool, hasWorld: bool, wasRunning: bool, f: Faults): Outcome {
    if !off then WorldNotOff
    else if !known || !f.validates then BadArtifact
    else if !hasWorld || !f.backsUp then BackupFailed
    else if !f.stage.Staged? then StageFailed
    else if !Switches(f.switch) then SwitchFailed
    else if !wasRunning || f.restarts then Success
    else if f.revertStage.Staged? && Switches(f.revertSwitch) then RevertedOutcome
    else RevertFailed
  }

  /** How a restore ends, outcome by outcome. */
  lemma OutcomesInWords(off: bool, known: bool, hasWorld: bool, wasRunning: bool, f: Faults)
    ensures var outcome := OutcomeOf(off, known, hasWorld, wasRunning, f);
            var backedUp := off && known && f.validates && hasWorld && f.backsUp;
            var switched := backedUp && f.stage == Staged
                            && f.switch.archiveMove == Done && f.switch.stagingMove == Done;
            var reverting := switched && wasRunning && !f.restarts;
            var back := f.revertStage == Staged
                        && f.revertSwitch.archiveMove == Done && f.revertSwitch.stagingMove == Done;
            && (outcome == WorldNotOff <==> !off)
            && (outcome == BadArtifact <==> off && !(known && f.validates))
            && (outcome == BackupFailed <==> off && known && f.validates && !backedUp)
            && (outcome == StageFailed <==> backedUp && f.stage != Staged)
            && (outcome == SwitchFailed <==> backedUp && f.stage == Staged && !switched)
            && (outcome == Success <==> switched && !reverting)
            && (outcome == RevertedOutcome <==> reverting && back)
            && (outcome == RevertFailed <==> reverting && !back)
  {}

  /** A finished move empties its source; a failed one leaves it, and touches nothing but its destination. */
  lemma MovesInWords(d: Dirs, src: Dir, dst: Dir, fault: MoveFault, other: Dir)
    requires src in d && dst !in d
    ensures var d' := MoveResult(d, src, dst, fault);
            && (other != src && other != dst ==>
                  (other in d' <==> other in d) && (other in d ==> d'[other] == d[other]))
            && (fault == Done ==> src !in d' && dst in d' && d'[dst] == d[src])
            && (fault != Done ==>
                  && src in d' && d'[src] == d[src]
                  && (dst in d' <==> fault.unfinished.Some?)
                  && (dst in d' ==> fault.unfinished == Some(d'[dst])))
  {}

  class RestoreService {
    const archived: Content -> Content
    var dirs: Dirs
    var artifacts: seq<Artifact>
    var history: seq<History>
    var worldState: WorldState
    var nextArchive: nat
    ghost var seen: seq<Dirs>

    /** Archive names handed out are below the counter, so the next one is fresh. */
    predicate Valid()
      reads this`dirs, this`nextArchive
    {
      forall d :: d in dirs && d.Archive? ==> d.n < nextArchive
    }

    constructor (archived: Content -> Content, dirs: Dirs, artifacts: seq<Artifact>, worldState: WorldState)
      requires forall d :: d in dirs ==> !d.Archive?
      ensures Valid() && this.dirs == dirs && this.artifacts == artifacts && this.worldState == worldState
      ensures history == [] && seen == [] && this.archived == archived
    {
      this.archived := archived;
      this.dirs, this.artifacts, this.worldState := dirs, artifacts, worldState;
      history, nextArchive, seen := [], 0, [];
    }

    ghost predicate SeenSince(before: seq<Dirs>, c: Content)
      reads this`seen
    {
      before <= seen && forall k :: |before| <= k < |seen| ==> Kept(seen[k], c)
    }

    /** The destination must not exist: moving onto a directory would move into it. */
    method Move(src: Dir, dst: Dir, fault: MoveFault) returns (ok: bool)
      requires src in dirs && dst !in dirs
      modifies this`dirs, this`seen
      ensures ok <==> fault.Done?
      ensures dirs == MoveResult(old(dirs), src, dst, fault)
      ensures seen == old(seen) + [dirs]
    {
      match fault {
        case Done => dirs := (dirs - {src})[dst := dirs[src]];
        case Failed(unfinished) =>
          if unfinished.Some? {
            dirs := dirs[dst := unfinished.value];
          }
      }
      seen := seen + [dirs];
      return fault.Done?;
    }

    method Remove(dir: Dir)
      modifies this`dirs, this`seen
      ensures dirs == old(dirs) - {dir} && seen == old(seen) + [dirs]
    {
      dirs := dirs - {dir};
      seen := seen + [dirs];
    }

    method Write(dir: Dir, c: Content)
      modifies this`dirs, this`seen
      ensures dirs == old(dirs)[dir := c] && seen == old(seen) + [dirs]
    {
      dirs := dirs[dir := c];
      seen := seen + [dirs];
    }

    method FlagSuspect(id: nat)
      modifies this`artifacts
      ensures artifacts == Flagged(old(artifacts), id)
    {
      if id < |artifacts| {
        artifacts := artifacts[id := artifacts[id].(suspect := true)];
      }
    }

    /** Replace the staging directory by the artifact's content, after validating it once more. */
    method ExtractToStaging(id: nat, fault: StageFault, ghost keep: Content) returns (ok: bool)
      requires Valid() && id < |artifacts| && Kept(dirs, keep)
      modifies this`dirs, this`seen, this`artifacts
      ensures Valid() && SeenSince(old(seen), keep)
      ensures ok <==> fault.Staged?
      ensures dirs - {Staging} == old(dirs) - {Staging}
      ensures ok ==> Staging in dirs && dirs[Staging] == old(artifacts)[id].content
      ensures artifacts == if Blames(fault) then Flagged(old(artifacts), id) else old(artifacts)
    {
      if fault.Unreadable? {
        FlagSuspect(id);
        return false;
      }
      if Staging in dirs {
        Remove(Staging);
        KeptWithoutStaging(old(dirs), dirs, keep);
      }
      match fault {
        case NotExtracted(unfinished, malformed) =>
          if unfinished.Some? {
            Write(Staging, unfinished.value);
            KeptWithoutStaging(old(dirs), dirs, keep);
          }
          if malformed {
            FlagSuspect(id);
          }
          return false;
        case Staged =>
          Write(Staging, artifacts[id].content);
          KeptWithoutStaging(old(dirs), dirs, keep);
          return true;
        case Unreadable => assert false;
      }
    }

    lemma KeptWithoutStaging(d: Dirs, d': Dirs, c: Content)
      requires Kept(d, c) && forall dir :: dir in d && dir != Staging ==> dir in d' && d'[dir] == d[dir]
      ensures Kept(d', c)
    {}

    /**
      Archive the world directory and put the staged one in its place; if that fails, put the
      archived one back.  Every directory but staging survives every step.
     */
    method SwitchWorld(faults: SwitchFaults, ghost keep: Content) returns (ok: bool)
      requires Valid() && World in dirs && Staging in dirs && Kept(dirs, keep)
      modifies this`dirs, this`seen, this`nextArchive
      ensures Valid() && SeenSince(old(seen), keep) && Kept(dirs, keep)
      ensures ok <==> Switches(faults)
      ensures ok ==>
                && World in dirs && dirs[World] == old(dirs)[Staging]
                && (exists n :: Archive(n) in dirs && Archive(n) !in old(dirs) && dirs[Archive(n)] == old(dirs)[World])
      ensures !ok && (faults.archiveMove.Failed? || faults.putBack.Done?) ==>
                World in dirs && dirs[World] == old(dirs)[World]
      ensures ArchivesStay(old(dirs), dirs)
    {
      var archive := Archive(nextArchive);
      nextArchive := nextArchive + 1;
      MoveKeeps(dirs, World, archive, faults.archiveMove, keep);
      var archived := Move(World, archive, faults.archiveMove);
      if !archived {
        return false;
      }
      ok := PlaceStaged(archive, faults, keep);
    }

    /** Move the staged directory into the world's empty place, or put the archived one back there. */
    method PlaceStaged(archive: Dir, faults: SwitchFaults, ghost keep: Content) returns (ok: bool)
      requires Valid() && archive.Archive? && archive in dirs && Staging in dirs && World !in dirs && Kept(dirs, keep)
      modifies this`dirs, this`seen
      ensures Valid() && SeenSince(old(seen), keep) && Kept(dirs, keep)
      ensures ok <==> faults.stagingMove.Done?
      ensures ok ==>
                && World in dirs && dirs[World] == old(dirs)[Staging]
                && archive in dirs && dirs[archive] == old(dirs)[archive]
      ensures !ok && faults.putBack.Done? ==> World in dirs && dirs[World] == old(dirs)[archive]
      ensures forall d: Dir :: d.Archive? && d != archive && d in old(dirs) ==> d in dirs && dirs[d] == old(dirs)[d]
    {
      MoveKeeps(dirs, Staging, World, faults.stagingMove, keep);
      var placed := Move(Staging, World, faults.stagingMove);
      if placed {
        return true;
      }
      PutBack(archive, faults.putBack, keep);
      return false;
    }

    /** Clear whatever the failed move left in the world's place and move the archived directory back. */
    method PutBack(archive: Dir, fault: MoveFault, ghost keep: Content)
      requires Valid() && archive.Archive? && archive in dirs && Kept(dirs - {World}, keep)
      modifies this`dirs, this`seen
      ensures Valid() && SeenSince(old(seen), keep) && Kept(dirs, keep)
      ensures fault.Done? ==> World in dirs && dirs[World] == old(dirs)[archive]
      ensures forall d: Dir :: d.Archive? && d != archive && d in old(dirs) ==> d in dirs && dirs[d] == old(dirs)[d]
    {
      if World in dirs {
        Remove(World);
      }
      assert dirs == old(dirs) - {World};
      MoveKeeps(dirs, archive, World, fault, keep);
      var _ := Move(archive, World, fault);
    }

    /** A move onto a fresh place loses nothing but what was, or is now, in staging. */
    lemma MoveKeeps(d: Dirs, src: Dir, dst: Dir, fault: MoveFault, c: Content)
      requires src in d && dst !in d && dst != Staging && Kept(d, c)
      ensures Kept(MoveResult(d, src, dst, fault), c)
      ensures src == Staging ==> Kept(MoveResult(d, src, dst, fault) - {dst}, c)
    {
      var dir :| dir in d && dir != Staging && d[dir] == c;
      var d' := MoveResult(d, src, dst, fault);
      var now := if dir == src && fault.Done? then dst else dir;
      assert now in d' && d'[now] == c;
      if src == Staging {
        assert dir in d' - {dst} && (d' - {dst})[dir] == c;
      }
    }

    /** Extract the artifact to staging and switch the world directory to it. */
    method Place(id: nat, stage: StageFault, switch: SwitchFaults, ghost keep: Content) returns (result: Placement)
      requires Valid() && id < |artifacts| && World in dirs && Kept(dirs, keep)
      modifies this`dirs, this`seen, this`artifacts, this`nextArchive
      ensures Valid() && SeenSince(old(seen), keep) && Kept(dirs, keep)
      ensures artifacts == if Blames(stage) then Flagged(old(artifacts), id) else old(artifacts)
      ensures result.Placed? ==> World in dirs && dirs[World] == old(artifacts)[id].content
      ensures result.NotStaged? || (result.NotSwitched? && (switch.archiveMove.Failed? || switch.putBack.Done?)) ==>
                World in dirs && dirs[World] == old(dirs)[World]
      ensures result.Placed? <==> stage.Staged? && Switches(switch)
      ensures result.NotStaged? <==> !stage.Staged?
    {
      ghost var before := dirs;
      var staged := ExtractToStaging(id, stage, keep);
      SameBesideStaging(before, dirs, World);
      KeptAcross(before, dirs, keep);
      if !staged {
        return NotStaged;
      }
      var switched := SwitchWorld(switch, keep);
      return if switched then Placed else NotSwitched;
    }

    method RecordHistory(source: nat, preRestore: nat, outcome: HistoryOutcome, rollbackOf: Option<nat>)
      returns (id: nat)
      modifies this`history
      ensures id == |old(history)| && history == old(history) + [History(source, preRestore, outcome, rollbackOf)]
    {
      id := |history|;
      history := history + [History(source, preRestore, outcome, rollbackOf)];
    }

    /** Back up what archiving keeps of the world directory as a new artifact. */
    method CreateWorldBackup(works: bool) returns (id: Option<nat>)
      modifies this`artifacts
      ensures id.Some? <==> works && World in dirs
      ensures id.Some? ==>
                id.value == |old(artifacts)| && artifacts == old(artifacts) + [Artifact(archived(dirs[World]), false)]
      ensures id.None? ==> artifacts == old(artifacts)
    {
      if !works || World !in dirs {
        return None;
      }
      artifacts := artifacts + [Artifact(archived(dirs[World]), false)];
      return Some(|artifacts| - 1);
    }

    /**
      The whole restore.  Once the pre-restore backup is registered, the original content is
      in a kept directory after every single step, and what archiving keeps of it in that artifact.
     */
    method RunRestore(artifactId: nat, wasRunning: bool, faults: Faults) returns (outcome: Outcome)
      requires Valid()
      modifies this
      ensures Valid()
      ensures outcome == OutcomeOf(old(worldState) == Off, artifactId < |old(artifacts)|, World in old(dirs),
                                   wasRunning, faults)
      ensures outcome.WorldNotOff? || outcome.BadArtifact? || outcome.BackupFailed? ==>
                dirs == old(dirs) && history == old(history) && worldState == old(worldState)
      ensures outcome.WorldNotOff? || outcome.BackupFailed? ==> artifacts == old(artifacts)
      ensures outcome.BadArtifact? ==>
                && SameContents(old(artifacts), artifacts)
                && (artifactId < |artifacts| ==> artifacts[artifactId].suspect)
      ensures outcome.Success? || outcome.SwitchFailed? ==>
                World in old(dirs) && artifacts == old(artifacts) + [Artifact(archived(old(dirs)[World]), false)]
      ensures outcome.StageFailed? ==>
                World in old(dirs)
                && var made := old(artifacts) + [Artifact(archived(old(dirs)[World]), false)];
                   artifacts == if faults.stage == Unreadable || (faults.stage.NotExtracted? && faults.stage.malformed)
                                then Flagged(made, artifactId) else made
      ensures outcome.RevertFailed? ==>
                World in old(dirs)
                && var made := Flagged(old(artifacts) + [Artifact(archived(old(dirs)[World]), false)], artifactId);
                   artifacts == if Blames(faults.revertStage) then Flagged(made, |old(artifacts)|) else made
      ensures outcome.RevertedOutcome? ==>
                World in old(dirs)
                && artifacts == Flagged(old(artifacts) + [Artifact(archived(old(dirs)[World]), false)], artifactId)
      ensures outcome == Success ==>
                artifactId < |old(artifacts)| && World in dirs && dirs[World] == old(artifacts)[artifactId].content
      ensures outcome == Success ==> worldState == if wasRunning then Running else Off
      ensures outcome == RevertedOutcome ==>
                && World in old(dirs) && World in dirs && dirs[World] == archived(old(dirs)[World])
                && worldState == Off
                && artifactId < |artifacts| && artifacts[artifactId].suspect
      ensures outcome == StageFailed ==> World in old(dirs) && World in dirs && dirs[World] == old(dirs)[World]
      ensures outcome == SwitchFailed && (faults.switch.archiveMove.Failed? || faults.switch.putBack.Done?) ==>
                World in old(dirs) && World in dirs && dirs[World] == old(dirs)[World]
      ensures outcome == RevertFailed ==> worldState == Faulted
      ensures PastBackup(outcome) ==>
                && World in old(dirs) && SeenSince(old(seen), old(dirs)[World]) && Kept(dirs, old(dirs)[World])
                && |artifacts| == |old(artifacts)| + 1
                && artifacts[|old(artifacts)|].content == archived(old(dirs)[World])
      ensures outcome.StageFailed? || outcome.SwitchFailed? ==> history == old(history) && worldState == old(worldState)
      ensures outcome == Success ==>
                history == old(history) + [History(artifactId, |old(artifacts)|, Succeeded, None)]
      ensures outcome == RevertedOutcome ==>
                var pre, first := |old(artifacts)|, |old(history)|;
                history == old(history)
                           + [History(artifactId, pre, Reverted, None), History(pre, pre, Reverted, Some(first))]
      ensures outcome == RevertFailed ==>
                history == old(history) + [History(artifactId, |old(artifacts)|, HistoryOutcome.Failed, None)]
    {
      if worldState != Off {
        return WorldNotOff;
      }
      if artifactId >= |artifacts| {
        return BadArtifact;
      }
      if !faults.validates {
        FlagSuspect(artifactId);
        return BadArtifact;
      }
      var made := CreateWorldBackup(faults.backsUp);
      if made.None? {
        return BackupFailed;
      }
      var pre := made.value;
      ghost var original := dirs[World];
      assert Kept(dirs, original);
      var placement := Place(artifactId, faults.stage, faults.switch, original);
      match placement {
        case NotStaged => return StageFailed;
        case NotSwitched => return SwitchFailed;
        case Placed =>
      }
      var restoreId := RecordHistory(artifactId, pre, Succeeded, None);
      if !wasRunning {
        worldState := Off;
        return Success;
      }
      if faults.restarts {
        worldState := Running;
        return Success;
      }
      FlagSuspect(artifactId);
      outcome := Revert(artifactId, pre, restoreId, faults.revertStage, faults.revertSwitch, original);
    }

    lemma SameBesideStaging(d: Dirs, d': Dirs, dir: Dir)
      requires d - {Staging} == d' - {Staging} && dir != Staging
      ensures dir in d <==> dir in d'
      ensures dir in d ==> d'[dir] == d[dir]
    {
      assert dir in d <==> dir in d - {Staging};
      assert dir in d' <==> dir in d' - {Staging};
      if dir in d {
        assert (d - {Staging})[dir] == d[dir] && (d' - {Staging})[dir] == d'[dir];
      }
    }

    /** Put the pre-restore backup back after a restart that did not come up. */
    method Revert(artifactId: nat, pre: nat, restoreId: nat, stage: StageFault, switch: SwitchFaults,
                  ghost original: Content)
      returns (outcome: Outcome)
      requires Valid() && pre < |artifacts| && artifacts[pre].content == archived(original)
      requires World in dirs && Kept(dirs, original)
      requires restoreId == |history| - 1 && 0 <= restoreId
      requires history[restoreId] == History(artifactId, pre, Succeeded, None)
      modifies this`dirs, this`seen, this`artifacts, this`nextArchive, this`history, this`worldState
      ensures Valid() && SeenSince(old(seen), original) && Kept(dirs, original)
      ensures outcome == if stage.Staged? && Switches(switch) then RevertedOutcome else RevertFailed
      ensures artifacts == if Blames(stage) then Flagged(old(artifacts), pre) else old(artifacts)
      ensures outcome == RevertedOutcome ==>
                && World in dirs && dirs[World] == archived(original) && worldState == Off
                && history == old(history)[..restoreId]
                              + [History(artifactId, pre, Reverted, None), History(pre, pre, Reverted, Some(restoreId))]
      ensures outcome == RevertFailed ==>
                && worldState == Faulted
                && history == old(history)[..restoreId] + [History(artifactId, pre, HistoryOutcome.Failed, None)]
    {
      var placement := Place(pre, stage, switch, original);
      if !placement.Placed? {
        history := history[restoreId := history[restoreId].(outcome := HistoryOutcome.Failed)];
        worldState := Faulted;
        return RevertFailed;
      }
      var _ := RecordHistory(pre, pre, Reverted, Some(restoreId));
      history := history[restoreId := history[restoreId].(outcome := Reverted)];
      worldState := Off;
      return RevertedOutcome;
    }

    lemma KeptAcross(d: Dirs, d': Dirs, c: Content)
      requires Kept(d, c) && d - {Staging} == d' - {Staging}
      ensures Kept(d', c)
    {
      var dir :| dir in d && dir != Staging && d[dir] == c;
      SameBesideStaging(d, d', dir);
    }
  }
}
