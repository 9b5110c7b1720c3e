/**
  What every run of creates, claims and transitions keeps, starting from empty tables.
 */
module OperationRuns {
  import opened Wrappers
  import opened OperationModel

  // ----- Rows only advance -----

  function Rank(s: Status): nat {
    if Terminal(s) then 2 else if s == Running then 1 else 0
  }

  /** How a persisted row may change over time. */
  predicate Advances(r: Row, r': Row) {
    && r'.opType == r.opType && r'.key == r.key && r'.worldId == r.worldId && r'.createdAt == r.createdAt
    && Rank(r.status) <= Rank(r'.status)
    && (r.status != Queued ==> r'.status != Queued)
    && (r.startedAt.Some? ==> r'.startedAt == r.startedAt)
    && (Terminal(r.status) ==> r' == r)
  }

  predicate Extends(s: Store, s': Store) {
    && |s.rows| <= |s'.rows|
    && forall i :: 0 <= i < |s.rows| ==> Advances(s.rows[i], s'.rows[i])
  }

  lemma InsertExtends(s: Store, req: Request, status: OpenStatus, victims: set<nat>, policed: bool, now: int)
    ensures Extends(s, Insert(s, req, status, victims, policed, now))
  {}

  lemma PolicedExtends(s: Store, req: Request, status: OpenStatus, now: int)
    requires req.worldId.Some?
    ensures Extends(s, CreatePoliced(s, req, status, now).0)
  {
    var active := ActiveOps(s.rows, req.worldId.value);
    InsertExtends(s, req, if Waits(s.rows, req, active) then Queued else status,
                  Victims(s.rows, req, active), true, now);
  }

  lemma CreateExtends(s: Store, req: Request, initial: OpenStatus, allow: bool, now: int)
    ensures Extends(s, Create(s, req, initial, allow, now).0)
  {
    var status := RequestedStatus(s.rows, req, initial);
    if Policed(req, allow) {
      PolicedExtends(s, req, status, now);
    } else {
      InsertExtends(s, req, status, {}, false, now);
    }
  }

  lemma StepExtends(s: Store, c: Command)
    ensures Extends(s, Step(s, c))
  {
    if c.DoCreate? {
      CreateExtends(s, c.req, c.initial, c.allowConflict, c.now);
    }
  }

  /** Over any run no row is lost, no status moves back, and a terminal row never changes again. */
  lemma {:induction false} RunExtends(s: Store, cs: seq<Command>)
    ensures Extends(s, Run(s, cs))
    decreases |cs|
  {
    if cs != [] {
      var s1 := Step(s, cs[0]);
      StepExtends(s, cs[0]);
      RunExtends(s1, cs[1..]);
      forall i | 0 <= i < |s.rows| ensures Advances(s.rows[i], Run(s, cs).rows[i]) {
        assert Advances(s.rows[i], s1.rows[i]);
        assert Advances(s1.rows[i], Run(s1, cs[1..]).rows[i]);
      }
    }
  }

  /**
    A keyed request that was inserted once is answered with that same operation for ever,
    whatever happens in between and whoever repeats it, and the repeat changes nothing.
   */
  lemma IdempotentReplay(s: Store, req: Request, initial: OpenStatus, allow: bool, now: int,
                         cs: seq<Command>, again: Request, initial': OpenStatus, allow': bool, now': int)
    requires Create(s, req, initial, allow, now).1.Inserted?
    requires req.key.Some? && again.key == req.key && again.opType == req.opType
    ensures var (s1, outcome) := Create(s, req, initial, allow, now);
            var later := Run(s1, cs);
            Create(later, again, initial', allow', now') == (later, Replayed(outcome.id))
  {
    var (s1, outcome) := Create(s, req, initial, allow, now);
    var later := Run(s1, cs);
    RunExtends(s1, cs);
    FreshKey(s, req, initial, allow, now);
    StaysFirst(s1.rows, later.rows, req, again, |s.rows|);
  }

  /** An inserted keyed request is the first row to carry its key. */
  lemma FreshKey(s: Store, req: Request, initial: OpenStatus, allow: bool, now: int)
    requires Create(s, req, initial, allow, now).1.Inserted? && req.key.Some?
    ensures var (s1, outcome) := Create(s, req, initial, allow, now);
            && outcome.id == |s.rows| < |s1.rows| && Replays(s1.rows[|s.rows|], req)
            && forall i :: 0 <= i < |s.rows| ==> !Replays(s1.rows[i], req)
  {
    CreateExtends(s, req, initial, allow, now);
    var s1 := Create(s, req, initial, allow, now).0;
    assert forall i :: 0 <= i < |s.rows| ==> Advances(s.rows[i], s1.rows[i]) && !Replays(s.rows[i], req);
  }

  lemma StaysFirst(rows: seq<Row>, later: seq<Row>, req: Request, again: Request, n: nat)
    requires n < |rows| <= |later| && forall i :: 0 <= i < |rows| ==> Advances(rows[i], later[i])
    requires Replays(rows[n], req) && forall i :: 0 <= i < n ==> !Replays(rows[i], req)
    requires again.key == req.key && again.opType == req.opType
    ensures FindReplay(later, again) == Some(n)
  {
    forall i | 0 <= i <= n ensures Replays(later[i], again) <==> i == n {
      assert Advances(rows[i], later[i]);
    }
    FirstReplayIs(later, again, n);
  }

  lemma {:induction false} FirstReplayIs(rows: seq<Row>, req: Request, n: nat)
    requires n < |rows| && Replays(rows[n], req)
    requires forall i :: 0 <= i < n ==> !Replays(rows[i], req)
    ensures FindReplay(rows, req) == Some(n)
  {
    var m := |rows| - 1;
    if n < m {
      FirstReplayIs(rows[..m], req, n);
    }
  }

  // ----- Which operations coexist -----

  /** Policed operations belong to a world, and two in flight in one world are always compatible. */
  predicate Coherent(s: Store) {
    && (forall i :: i in s.policed ==> i < |s.rows| && s.rows[i].worldId.Some?)
    && (forall i, j :: i in s.policed && j in s.policed && i != j
          && s.rows[i].worldId == s.rows[j].worldId && InFlight(s.rows[i].status) && InFlight(s.rows[j].status)
          ==> Compatible(s.rows[i].opType, s.rows[j].opType))
  }

  predicate CleanupsPoliced(s: Store) {
    forall i: nat :: i < |s.rows| && s.rows[i].opType == Cleanup && s.rows[i].worldId.Some? ==> i in s.policed
  }

  /** Callers bypass the policy for other types, never for a world's cleanup. */
  predicate KeepsCleanupsPoliced(c: Command) {
    c.DoCreate? && c.req.opType == Cleanup && c.req.worldId.Some? ==> !c.allowConflict
  }

  predicate AllKeepCleanupsPoliced(cs: seq<Command>) {
    forall k :: 0 <= k < |cs| ==> KeepsCleanupsPoliced(cs[k])
  }

  /** The early return for a repeated cleanup, taken over an operation it never looked at. */
  predicate CleanupOverlooks(s: Store, req: Request) {
    && req.worldId.Some?
    && (exists i :: i in ActiveOps(s.rows, req.worldId.value) && SameScope(s.rows[i], req))
    && (exists i :: i in ActiveOps(s.rows, req.worldId.value) && i in s.policed
          && !Compatible(s.rows[i].opType, Cleanup))
  }

  /** What an insertion leaves: the rows still in flight untouched, and one new open row. */
  predicate InsertedInto(s: Store, s': Store, req: Request, policed: bool) {
    var n := |s.rows|;
    && |s'.rows| == n + 1 && s'.notify == s.notify
    && s'.rows[n].opType == req.opType && s'.rows[n].worldId == req.worldId && InFlight(s'.rows[n].status)
    && s'.policed == s.policed + (if policed then {n} else {})
    && (forall i :: 0 <= i < n ==> s'.rows[i].opType == s.rows[i].opType && s'.rows[i].worldId == s.rows[i].worldId)
    && (forall i :: 0 <= i < n && InFlight(s'.rows[i].status) ==> s'.rows[i] == s.rows[i])
  }

  lemma CreateInserts(s: Store, req: Request, initial: OpenStatus, allow: bool, now: int)
    requires Create(s, req, initial, allow, now).1.Inserted?
    ensures InsertedInto(s, Create(s, req, initial, allow, now).0, req, Policed(req, allow))
  {}

  /** What the policy lets stay beside a new operation. */
  lemma PolicyLeaves(s: Store, req: Request, initial: OpenStatus, now: int, i: nat)
    requires Policed(req, false) && Create(s, req, initial, false, now).1.Inserted?
    requires i in ActiveOps(s.rows, req.worldId.value)
    requires InFlight(Create(s, req, initial, false, now).0.rows[i].status)
    ensures || Compatible(s.rows[i].opType, req.opType)
            || exists j :: j in ActiveOps(s.rows, req.worldId.value) && SameScope(s.rows[j], req)
  {}

  lemma OverlookedStays(s: Store, req: Request, initial: OpenStatus, now: int, i: nat)
    requires Policed(req, false) && FindReplay(s.rows, req).None? && CleanupOverlooks(s, req)
    requires i in ActiveOps(s.rows, req.worldId.value)
    ensures Create(s, req, initial, false, now).1.Inserted?
    ensures InFlight(Create(s, req, initial, false, now).0.rows[i].status)
  {}

  lemma CoherentAfterInsert(s: Store, s': Store, req: Request)
    requires Coherent(s) && InsertedInto(s, s', req, true) && req.worldId.Some?
    requires forall i :: i in s.policed && s'.rows[i].worldId == req.worldId && InFlight(s'.rows[i].status) ==>
               Compatible(s.rows[i].opType, req.opType)
    ensures Coherent(s')
  {}

  lemma OverlookingBreaks(s: Store, req: Request, initial: OpenStatus, now: int)
    requires Coherent(s) && FindReplay(s.rows, req).None? && Policed(req, false) && CleanupOverlooks(s, req)
    ensures !Coherent(Create(s, req, initial, false, now).0)
  {
    var i :| i in ActiveOps(s.rows, req.worldId.value) && i in s.policed && !Compatible(s.rows[i].opType, Cleanup);
    OverlookedStays(s, req, initial, now, i);
    CreateInserts(s, req, initial, false, now);
    var s' := Create(s, req, initial, false, now).0;
    assert i in s'.policed && |s.rows| in s'.policed;
  }

  lemma OtherwiseCoherent(s: Store, req: Request, initial: OpenStatus, now: int)
    requires Coherent(s) && Policed(req, false) && !CleanupOverlooks(s, req)
    ensures Coherent(Create(s, req, initial, false, now).0)
  {
    if Create(s, req, initial, false, now).1.Inserted? {
      var s' := Create(s, req, initial, false, now).0;
      CreateInserts(s, req, initial, false, now);
      forall i | i in s.policed && s'.rows[i].worldId == req.worldId && InFlight(s'.rows[i].status)
        ensures Compatible(s.rows[i].opType, req.opType)
      {
        PolicyLeaves(s, req, initial, now, i);
      }
      CoherentAfterInsert(s, s', req);
    }
  }

  /** A create keeps the world coherent unless it is a repeated cleanup that overlooks something. */
  lemma CreateCoherentExactly(s: Store, req: Request, initial: OpenStatus, allow: bool, now: int)
    requires Coherent(s) && FindReplay(s.rows, req).None?
    ensures Coherent(Create(s, req, initial, allow, now).0)
            <==> !(Policed(req, allow) && CleanupOverlooks(s, req))
  {
    if !Policed(req, allow) {
      CreateInserts(s, req, initial, allow, now);
    } else if CleanupOverlooks(s, req) {
      OverlookingBreaks(s, req, initial, now);
    } else {
      OtherwiseCoherent(s, req, initial, now);
    }
  }

  /** While every world's cleanups are policed, nothing can be overlooked. */
  lemma NothingOverlooked(s: Store, req: Request)
    requires Coherent(s) && CleanupsPoliced(s)
    ensures !CleanupOverlooks(s, req)
  {}

  lemma CreateCoherent(s: Store, req: Request, initial: OpenStatus, allow: bool, now: int)
    requires Coherent(s) && CleanupsPoliced(s)
    requires req.opType == Cleanup && req.worldId.Some? ==> !allow
    ensures Coherent(Create(s, req, initial, allow, now).0) && CleanupsPoliced(Create(s, req, initial, allow, now).0)
  {
    NothingOverlooked(s, req);
    if FindReplay(s.rows, req).None? {
      CreateCoherentExactly(s, req, initial, allow, now);
    }
    if Create(s, req, initial, allow, now).1.Inserted? {
      CreateInserts(s, req, initial, allow, now);
    }
  }

  /** A step that adds no row and brings none back in flight disturbs nothing. */
  lemma SettlingCoherent(s: Store, s': Store)
    requires Coherent(s) && CleanupsPoliced(s) && s'.policed == s.policed && |s'.rows| == |s.rows|
    requires forall i :: 0 <= i < |s.rows| ==>
               && s'.rows[i].opType == s.rows[i].opType && s'.rows[i].worldId == s.rows[i].worldId
               && (InFlight(s'.rows[i].status) ==> InFlight(s.rows[i].status))
    ensures Coherent(s') && CleanupsPoliced(s')
  {}

  lemma StepCoherent(s: Store, c: Command)
    requires Coherent(s) && CleanupsPoliced(s) && KeepsCleanupsPoliced(c)
    ensures Coherent(Step(s, c)) && CleanupsPoliced(Step(s, c))
  {
    if c.DoCreate? {
      CreateCoherent(s, c.req, c.initial, c.allowConflict, c.now);
    } else {
      SettlingCoherent(s, Step(s, c));
    }
  }

  lemma {:induction false} RunCoherent(s: Store, cs: seq<Command>)
    requires Coherent(s) && CleanupsPoliced(s) && AllKeepCleanupsPoliced(cs)
    ensures Coherent(Run(s, cs)) && CleanupsPoliced(Run(s, cs))
    decreases |cs|
  {
    if cs != [] {
      StepCoherent(s, cs[0]);
      assert forall k :: 0 <= k < |cs[1..]| ==> cs[1..][k] == cs[k + 1];
      RunCoherent(Step(s, cs[0]), cs[1..]);
    }
  }

  /** Two different policed operations of one world, both in flight, with these types. */
  predicate Together(s: Store, i: nat, j: nat, a: OpType, b: OpType) {
    && i != j && i in s.policed && j in s.policed && i < |s.rows| && j < |s.rows|
    && s.rows[i].worldId == s.rows[j].worldId
    && InFlight(s.rows[i].status) && InFlight(s.rows[j].status)
    && s.rows[i].opType == a && s.rows[j].opType == b
  }

  ghost predicate Reachable(a: OpType, b: OpType) {
    exists cs: seq<Command>, i: nat, j: nat ::
      AllKeepCleanupsPoliced(cs) && Together(Run(Empty(true), cs), i, j, a, b)
  }

  /** The matrix is exact: two types are ever in flight together if and only if it allows them. */
  lemma CoexistenceExact(a: OpType, b: OpType)
    ensures Reachable(a, b) <==> Compatible(a, b)
  {
    if Reachable(a, b) {
      var cs, i: nat, j: nat :| AllKeepCleanupsPoliced(cs) && Together(Run(Empty(true), cs), i, j, a, b);
      RunCoherent(Empty(true), cs);
    }
    if Compatible(a, b) {
      assert PairwiseCompatible([a, b]);
      WorldsExact([a, b]);
      var cs, ids :| SharedAfter(cs, ids, [a, b]);
      assert Together(Run(Empty(true), cs), ids[0], ids[1], a, b);
    }
  }

  /** Different policed operations of one world, all in flight, with these types. */
  predicate Shared(s: Store, ids: seq<nat>, types: seq<OpType>) {
    && |ids| == |types|
    && (forall i :: 0 <= i < |ids| ==>
          && ids[i] in s.policed && ids[i] < |s.rows|
          && InFlight(s.rows[ids[i]].status) && s.rows[ids[i]].opType == types[i])
    && (forall i, j :: 0 <= i < j < |ids| ==>
          ids[i] != ids[j] && s.rows[ids[i]].worldId == s.rows[ids[j]].worldId)
  }

  predicate SharedAfter(cs: seq<Command>, ids: seq<nat>, types: seq<OpType>) {
    AllKeepCleanupsPoliced(cs) && Shared(Run(Empty(true), cs), ids, types)
  }

  predicate PairwiseCompatible(types: seq<OpType>) {
    forall i, j :: 0 <= i < j < |types| ==> Compatible(types[i], types[j])
  }

  /** Any number of operations can share a world exactly when every two of them are compatible. */
  lemma WorldsExact(types: seq<OpType>)
    requires Sync !in types
    ensures (exists cs, ids :: SharedAfter(cs, ids, types)) <==> PairwiseCompatible(types)
  {
    if cs, ids :| SharedAfter(cs, ids, types) {
      RunCoherent(Empty(true), cs);
      SharedAreCompatible(Run(Empty(true), cs), ids, types);
    }
    if PairwiseCompatible(types) {
      CreatesRun(types);
      var ids := InhabitedIsShared(Built(types), types);
      assert SharedAfter(Creates(types), ids, types);
    }
  }

  lemma SharedAreCompatible(s: Store, ids: seq<nat>, types: seq<OpType>)
    requires Coherent(s) && Shared(s, ids, types)
    ensures PairwiseCompatible(types)
  {
    forall i, j | 0 <= i < j < |types| ensures Compatible(types[i], types[j]) {
      assert s.rows[ids[i]].opType == types[i] && s.rows[ids[j]].opType == types[j];
    }
  }

  lemma InhabitedIsShared(s: Store, types: seq<OpType>) returns (ids: seq<nat>)
    requires Inhabited(s, types)
    ensures Shared(s, ids, types)
  {
    ids := seq(|types|, i => i);
  }

  function InW(t: OpType): Request { Request(t, Some("w"), None, None) }

  function Creates(types: seq<OpType>): (cs: seq<Command>)
    ensures |cs| == |types| && forall i :: 0 <= i < |types| ==> cs[i] == DoCreate(InW(types[i]), Queued, false, 0)
  {
    seq(|types|, i requires 0 <= i < |types| => DoCreate(InW(types[i]), Queued, false, 0))
  }

  /** The store holds exactly these operations, all policed and in flight in one world. */
  predicate Inhabited(s: Store, types: seq<OpType>) {
    && |s.rows| == |types|
    && forall i: nat :: i < |types| ==>
         && i in s.policed && s.rows[i].opType == types[i] && s.rows[i].worldId == Some("w")
         && InFlight(s.rows[i].status)
  }

  /** A type compatible with everything there is let in and takes nothing off. */
  lemma FitsBeside(s: Store, types: seq<OpType>, t: OpType)
    requires Inhabited(s, types) && forall i :: 0 <= i < |types| ==> Compatible(types[i], t)
    ensures var active := ActiveOps(s.rows, "w");
            && FindRepeated(s.rows, InW(t), "w").None?
            && Victims(s.rows, InW(t), active) == {} && Admits(s.rows, InW(t), active)
  {
    var active := ActiveOps(s.rows, "w");
    assert forall i :: 0 <= i < |s.rows| ==> s.rows[i].opType == types[i] && Compatible(s.rows[i].opType, t);
  }

  lemma InsertInhabits(s: Store, types: seq<OpType>, t: OpType)
    requires Inhabited(s, types)
    ensures Inhabited(Insert(s, InW(t), Queued, {}, true, 0), types + [t])
  {}

  lemma OneMore(s: Store, types: seq<OpType>, t: OpType)
    requires Inhabited(s, types) && t != Sync && forall i :: 0 <= i < |types| ==> Compatible(types[i], t)
    ensures Inhabited(Step(s, DoCreate(InW(t), Queued, false, 0)), types + [t])
  {
    FitsBeside(s, types, t);
    InsertInhabits(s, types, t);
    assert Create(s, InW(t), Queued, false, 0).0 == Insert(s, InW(t), Queued, {}, true, 0);
  }

  /** One create after the other from empty tables. */
  function Built(types: seq<OpType>): Store { Run(Empty(true), Creates(types)) }

  lemma BuiltThen(types: seq<OpType>, t: OpType)
    ensures Built(types + [t]) == Step(Built(types), DoCreate(InW(t), Queued, false, 0))
  {
    var last := DoCreate(InW(t), Queued, false, 0);
    assert Creates(types + [t]) == Creates(types) + [last];
    RunThen(Empty(true), Creates(types), [last]);
    RunOfOne(Run(Empty(true), Creates(types)), last);
  }

  lemma NothingBuilt()
    ensures Inhabited(Built([]), [])
  {
    assert Creates([]) == [];
  }

  lemma BuiltOneMore(types: seq<OpType>, t: OpType)
    requires Inhabited(Built(types), types) && t != Sync && forall i :: 0 <= i < |types| ==> Compatible(types[i], t)
    ensures Inhabited(Built(types + [t]), types + [t])
  {
    BuiltThen(types, t);
    OneMore(Built(types), types, t);
  }

  lemma {:induction false} CreatesRun(types: seq<OpType>)
    requires PairwiseCompatible(types) && Sync !in types
    ensures Inhabited(Built(types), types)
  {
    if types == [] {
      NothingBuilt();
    } else {
      var n := |types| - 1;
      CreatesRun(types[..n]);
      BuiltOneMore(types[..n], types[n]);
      assert types == types[..n] + [types[n]];
    }
  }

  lemma {:induction false} RunThen(s: Store, cs: seq<Command>, ds: seq<Command>)
    ensures Run(s, cs + ds) == Run(Run(s, cs), ds)
    decreases |cs|
  {
    if cs == [] {
      assert cs + ds == ds;
    } else {
      assert (cs + ds)[1..] == cs[1..] + ds;
      RunThen(Step(s, cs[0]), cs[1..], ds);
    }
  }

  lemma RunOfOne(s: Store, c: Command)
    ensures Run(s, [c]) == Step(s, c)
  {}

  lemma RunOfTwo(s: Store, c: Command, d: Command)
    ensures Run(s, [c, d]) == Step(Step(s, c), d)
  {
    assert [c, d][1..] == [d];
    RunOfOne(Step(s, c), d);
  }

  /** The conflict table: the pairs that are ever in flight together in one world, and no others. */
  lemma WorldMembers(a: OpType, b: OpType)
    ensures Reachable(a, b) <==>
              || (a == b && (a == Backup || a == Restore || a == Cleanup))
              || ((a == Start || a == Stop || a == Kill) && (b == Backup || b == Cleanup))
              || ((b == Start || b == Stop || b == Kill) && (a == Backup || a == Cleanup))
  {
    CoexistenceExact(a, b);
  }

  /** A bypassed cleanup is not harmless: it lets a checked cleanup in beside a checked backup. */
  lemma BypassedCleanupBreaks()
    ensures var backup := Request(Backup, Some("w"), None, None);
            var cleanup := Request(Cleanup, Some("w"), None, None);
            !Coherent(Run(Empty(true), [DoCreate(backup, Queued, false, 0), DoCreate(cleanup, Queued, true, 0),
                                        DoCreate(cleanup, Queued, false, 0)]))
  {
    var backup := Request(Backup, Some("w"), None, None);
    var cleanup := Request(Cleanup, Some("w"), None, None);
    var c0 := DoCreate(backup, Queued, false, 0);
    var c1, c2 := DoCreate(cleanup, Queued, true, 0), DoCreate(cleanup, Queued, false, 0);
    CreateInserts(Empty(true), backup, Queued, false, 0);
    BreaksBesideBackup(Step(Empty(true), c0), cleanup);
    assert [c0, c1, c2][1..] == [c1, c2];
  }

  lemma BreaksBesideBackup(s: Store, cleanup: Request)
    requires |s.rows| == 1 && s.policed == {0} && cleanup == Request(Cleanup, Some("w"), None, None)
    requires s.rows[0].opType == Backup && s.rows[0].worldId == Some("w") && InFlight(s.rows[0].status)
    ensures !Coherent(Run(s, [DoCreate(cleanup, Queued, true, 0), DoCreate(cleanup, Queued, false, 0)]))
  {
    var s2 := Create(s, cleanup, Queued, true, 0).0;
    BypassInserts(s, cleanup);
    BypassLeavesBoth(s, s2, cleanup);
    CreateCoherentExactly(s2, cleanup, Queued, false, 0);
    RunOfTwo(s, DoCreate(cleanup, Queued, true, 0), DoCreate(cleanup, Queued, false, 0));
  }

  lemma BypassInserts(s: Store, req: Request)
    requires req.key.None?
    ensures Create(s, req, Queued, true, 0).0.rows == s.rows + [NewRow(req, Queued, 0)]
    ensures Create(s, req, Queued, true, 0).0.policed == s.policed
  {}

  lemma BypassLeavesBoth(s1: Store, s2: Store, cleanup: Request)
    requires |s1.rows| == 1 && s1.policed == {0} && cleanup.opType == Cleanup && cleanup.worldId == Some("w")
    requires s1.rows[0].opType == Backup && s1.rows[0].worldId == Some("w") && InFlight(s1.rows[0].status)
    requires s2.rows == s1.rows + [NewRow(cleanup, Queued, 0)] && s2.policed == s1.policed && cleanup.data.None?
    ensures Coherent(s2) && CleanupOverlooks(s2, cleanup)
  {
    assert 0 in ActiveOps(s2.rows, "w") && 1 in ActiveOps(s2.rows, "w");
    assert SameScope(s2.rows[1], cleanup);
  }

  // ----- Audits and notifications -----

  function AuditsFor(audits: seq<Audit>, id: nat): seq<Audit> {
    if audits == [] then []
    else
      var n := |audits| - 1;
      AuditsFor(audits[..n], id) + if audits[n].opId == id then [audits[n]] else []
  }

  function NotesFor(notes: seq<Note>, id: nat): seq<Note> {
    if notes == [] then []
    else
      var n := |notes| - 1;
      NotesFor(notes[..n], id) + if notes[n].opId == id then [notes[n]] else []
  }

  /** A terminal row has exactly the audit of its final content, any other id has none. */
  predicate AuditLine(audits: seq<Audit>, rows: seq<Row>, id: nat) {
    AuditsFor(audits, id) == if id < |rows| && Terminal(rows[id].status) then [AuditOf(id, rows[id])] else []
  }

  /** A terminal row has the notification its rule asks for, once; any other id has none. */
  predicate NoteLine(notes: seq<Note>, rows: seq<Row>, notify: bool, id: nat) {
    NotesFor(notes, id) == if id < |rows| && Terminal(rows[id].status) && notify then NotesOf(id, rows[id]) else []
  }

  ghost predicate Recorded(s: Store) {
    && (forall id: nat :: AuditLine(s.audits, s.rows, id))
    && (forall id: nat :: NoteLine(s.notes, s.rows, s.notify, id))
  }

  lemma {:induction false} AuditsForConcat(a: seq<Audit>, b: seq<Audit>, id: nat)
    ensures AuditsFor(a + b, id) == AuditsFor(a, id) + AuditsFor(b, id)
  {
    if b == [] {
      assert a + b == a;
    } else {
      var n := |b| - 1;
      AuditsForConcat(a, b[..n], id);
      assert (a + b)[..|a| + n] == a + b[..n];
    }
  }

  lemma {:induction false} AuditsForBatch(rows: seq<Row>, ids: set<nat>, id: nat)
    ensures AuditsFor(AuditsOf(rows, ids), id) == if id < |rows| && id in ids then [AuditOf(id, rows[id])] else []
  {
    if rows != [] {
      var n := |rows| - 1;
      var last := if n in ids then [AuditOf(n, rows[n])] else [];
      AuditsForBatch(rows[..n], ids, id);
      AuditsForConcat(AuditsOf(rows[..n], ids), last, id);
      assert AuditsFor(last, id) == if n in ids && id == n then last else [];
    }
  }

  lemma {:induction false} NoteMissing(notes: seq<Note>, id: nat)
    requires NotesFor(notes, id) == []
    ensures forall k :: 0 <= k < |notes| ==> notes[k].opId != id
  {
    if notes != [] {
      NoteMissing(notes[..|notes| - 1], id);
    }
  }

  lemma NotesForAppend(notes: seq<Note>, n: Note, id: nat)
    ensures NotesFor(notes + [n], id) == NotesFor(notes, id) + if n.opId == id then [n] else []
  {}

  /** What an insertion cancels is audited once; what it adds is not audited. */
  lemma InsertAudits(audits: seq<Audit>, rows: seq<Row>, victims: set<nat>, now: int, code: string, added: Row, id: nat)
    requires AuditLine(audits, rows, id) && InFlight(added.status)
    requires forall i :: i in victims ==> i < |rows| && InFlight(rows[i].status)
    ensures var cancelled := CancelRows(rows, victims, now, code);
            AuditLine(audits + AuditsOf(cancelled, victims), cancelled + [added], id)
  {
    var cancelled := CancelRows(rows, victims, now, code);
    AuditsForConcat(audits, AuditsOf(cancelled, victims), id);
    AuditsForBatch(cancelled, victims, id);
  }

  /** Neither a cancelled Stop nor a cancelled DeleteWorld has a notification rule. */
  lemma InsertNotes(notes: seq<Note>, rows: seq<Row>, notify: bool, victims: set<nat>, now: int, code: string,
                    added: Row, id: nat)
    requires NoteLine(notes, rows, notify, id) && InFlight(added.status)
    requires forall i :: i in victims ==>
               i < |rows| && InFlight(rows[i].status) && (rows[i].opType.Stop? || rows[i].opType.DeleteWorld?)
    ensures NoteLine(notes, CancelRows(rows, victims, now, code) + [added], notify, id)
  {}

  lemma VictimsAreQuiet(rows: seq<Row>, req: Request, w: string)
    ensures forall i :: i in Victims(rows, req, ActiveOps(rows, w)) ==>
              i < |rows| && InFlight(rows[i].status) && (rows[i].opType.Stop? || rows[i].opType.DeleteWorld?)
  {}

  lemma InsertRecords(s: Store, req: Request, status: OpenStatus, victims: set<nat>, policed: bool, now: int)
    requires Recorded(s)
    requires forall i :: i in victims ==>
               i < |s.rows| && InFlight(s.rows[i].status) && (s.rows[i].opType.Stop? || s.rows[i].opType.DeleteWorld?)
    ensures Recorded(Insert(s, req, status, victims, policed, now))
  {
    var s' := Insert(s, req, status, victims, policed, now);
    forall id: nat ensures AuditLine(s'.audits, s'.rows, id) && NoteLine(s'.notes, s'.rows, s'.notify, id) {
      InsertAudits(s.audits, s.rows, victims, now, SupersededBy(req), NewRow(req, status, now), id);
      InsertNotes(s.notes, s.rows, s.notify, victims, now, SupersededBy(req), NewRow(req, status, now), id);
    }
  }

  lemma MoveAudits(audits: seq<Audit>, rows: seq<Row>, op: nat, r: Row, id: nat)
    requires op < |rows| && InFlight(rows[op].status) && AuditLine(audits, rows, id)
    ensures AuditLine(if Terminal(r.status) then audits + [AuditOf(op, r)] else audits, rows[op := r], id)
  {}

  lemma PublishAppends(notes: seq<Note>, op: nat, r: Row)
    requires NotesFor(notes, op) == []
    ensures Publish(notes, op, r) == notes + NotesOf(op, r)
  {
    NoteMissing(notes, op);
  }

  lemma NotesAfter(notes: seq<Note>, op: nat, r: Row, id: nat)
    ensures NotesFor(notes + NotesOf(op, r), id) == NotesFor(notes, id) + if id == op then NotesOf(op, r) else []
  {
    if NotesOf(op, r) != [] {
      NotesForAppend(notes, NotesOf(op, r)[0], id);
    } else {
      assert notes + [] == notes;
    }
  }

  lemma MoveNotes(notes: seq<Note>, rows: seq<Row>, notify: bool, op: nat, r: Row, id: nat)
    requires op < |rows| && InFlight(rows[op].status)
    requires NoteLine(notes, rows, notify, id) && NoteLine(notes, rows, notify, op)
    ensures NoteLine(if Terminal(r.status) && notify then Publish(notes, op, r) else notes, rows[op := r], notify, id)
  {
    PublishAppends(notes, op, r);
    NotesAfter(notes, op, r, id);
  }

  lemma TransitionRecords(s: Store, op: nat, status: Status, change: Change, now: int)
    requires Recorded(s) && Transition(s, op, status, change, now).Ok?
    ensures Recorded(Transition(s, op, status, change, now).value)
  {
    var s' := Transition(s, op, status, change, now).value;
    if Terminal(status) || status == Running {
      var r := Moved(s.rows[op], status, change, now);
      assert s.audits + [] == s.audits;
      forall id: nat ensures AuditLine(s'.audits, s'.rows, id) && NoteLine(s'.notes, s'.rows, s'.notify, id) {
        MoveAudits(s.audits, s.rows, op, r, id);
        MoveNotes(s.notes, s.rows, s.notify, op, r, id);
      }
    }
  }

  lemma StepRecords(s: Store, c: Command)
    requires Recorded(s)
    ensures Recorded(Step(s, c))
  {
    match c {
      case DoCreate(req, initial, allow, now) =>
        var status := RequestedStatus(s.rows, req, initial);
        if Policed(req, allow) {
          var active := ActiveOps(s.rows, req.worldId.value);
          VictimsAreQuiet(s.rows, req, req.worldId.value);
          InsertRecords(s, req, if Waits(s.rows, req, active) then Queued else status,
                        Victims(s.rows, req, active), true, now);
        } else {
          InsertRecords(s, req, status, {}, false, now);
        }
      case DoClaim(op, now) =>
        ClaimRecords(s, op, now);
      case DoTransition(op, status, change, now) =>
        if Transition(s, op, status, change, now).Ok? {
          TransitionRecords(s, op, status, change, now);
        }
    }
  }

  lemma ClaimRecords(s: Store, op: nat, now: int)
    requires Recorded(s)
    ensures Recorded(Claim(s, op, now))
  {
    var s' := Claim(s, op, now);
    forall id: nat ensures AuditLine(s'.audits, s'.rows, id) && NoteLine(s'.notes, s'.rows, s'.notify, id) {
      assert AuditLine(s.audits, s.rows, id) && NoteLine(s.notes, s.rows, s.notify, id);
    }
  }

  /** In every reachable state, records are exact: one audit per terminal operation, none otherwise. */
  lemma {:induction false} RunRecords(s: Store, cs: seq<Command>)
    requires Recorded(s)
    ensures Recorded(Run(s, cs))
    decreases |cs|
  {
    if cs != [] {
      StepRecords(s, cs[0]);
      RunRecords(Step(s, cs[0]), cs[1..]);
    }
  }

  lemma EveryReachableStateIsRecorded(notify: bool, cs: seq<Command>)
    ensures Recorded(Run(Empty(notify), cs))
  {
    RunRecords(Empty(notify), cs);
  }

  // ----- Claims and single flight -----

  /** Claimed operations have left the queue, and no id was handed out twice. */
  predicate ClaimsOnce(s: Store) {
    && (forall k :: 0 <= k < |s.claims| ==> s.claims[k] < |s.rows| && s.rows[s.claims[k]].status != Queued)
    && (forall j, k :: 0 <= j < k < |s.claims| ==> s.claims[j] != s.claims[k])
  }

  lemma ClaimsKept(s: Store, s': Store)
    requires ClaimsOnce(s) && Extends(s, s') && s'.claims == s.claims
    ensures ClaimsOnce(s')
  {
    forall k | 0 <= k < |s.claims| ensures s'.rows[s.claims[k]].status != Queued {
      assert Advances(s.rows[s.claims[k]], s'.rows[s.claims[k]]);
    }
  }

  lemma ClaimAdded(s: Store, id: nat, now: int)
    requires ClaimsOnce(s)
    ensures ClaimsOnce(Claim(s, id, now))
  {}

  lemma StepClaimsOnce(s: Store, c: Command)
    requires ClaimsOnce(s)
    ensures ClaimsOnce(Step(s, c))
  {
    if c.DoClaim? {
      ClaimAdded(s, c.id, c.now);
    } else {
      StepExtends(s, c);
      ClaimsKept(s, Step(s, c));
    }
  }

  lemma {:induction false} NoOperationIsClaimedTwice(s: Store, cs: seq<Command>)
    requires ClaimsOnce(s)
    ensures ClaimsOnce(Run(s, cs))
    decreases |cs|
  {
    if cs != [] {
      StepClaimsOnce(s, cs[0]);
      NoOperationIsClaimedTwice(Step(s, cs[0]), cs[1..]);
    }
  }

  predicate SingleFlightType(t: OpType) { t.Backup? || t.Restore? || t.Cleanup? }

  /** Whether two rows may not both be past the queue. */
  predicate Exclusive(r: Row, r': Row) {
    && r.worldId.Some? && r.worldId == r'.worldId && r.opType == r'.opType
    && ((r.opType.Backup? || r.opType.Restore?)
        || (r.opType.Cleanup? && ScopeOf(r.worldId, r.data) == ScopeOf(r'.worldId, r'.data)))
  }

  predicate SingleFlight(s: Store) {
    forall i, j :: 0 <= i < |s.rows| && 0 <= j < |s.rows| && i != j && Exclusive(s.rows[i], s.rows[j]) ==>
      !(Active(s.rows[i].status) && Active(s.rows[j].status))
  }

  /**
    A single-flight operation that bypasses the policy is queued, leaves the queue only by a
    claim or into a terminal status, and keeps its payload until it is terminal.
   */
  predicate Disciplined(s: Store, c: Command) {
    match c
    case DoCreate(req, initial, allow, now) => SingleFlightType(req.opType) && allow ==> initial == Queued
    case DoClaim(id, now) => true
    case DoTransition(id, status, change, now) =>
      id < |s.rows| && SingleFlightType(s.rows[id].opType) && status == Running ==>
        s.rows[id].status != Queued && change.data.None?
  }

  predicate DisciplinedRun(s: Store, cs: seq<Command>)
    decreases |cs|
  {
    cs == [] || (Disciplined(s, cs[0]) && DisciplinedRun(Step(s, cs[0]), cs[1..]))
  }

  /** An in-flight row a new single-flight operation has to queue behind. */
  predicate Duplicates(r: Row, req: Request) {
    InFlight(r.status)
    && ((r.worldId == req.worldId && r.opType == req.opType && (r.opType.Backup? || r.opType.Restore?))
        || SameScope(r, req))
  }

  /** A checked single-flight operation queues exactly when one of its kind is in flight, or when asked to. */
  lemma QueuesExactly(s: Store, req: Request, initial: OpenStatus, now: int)
    requires SingleFlightType(req.opType) && Policed(req, false) && Create(s, req, initial, false, now).1.Inserted?
    ensures var rows := Create(s, req, initial, false, now).0.rows;
            && |rows| == |s.rows| + 1
            && rows[|s.rows|].status ==
               if exists i :: 0 <= i < |s.rows| && Duplicates(s.rows[i], req) then Queued else initial
  {
    var active := ActiveOps(s.rows, req.worldId.value);
    if i :| 0 <= i < |s.rows| && Duplicates(s.rows[i], req) {
      assert s.rows[i].worldId == req.worldId ==> i in active;
    }
    if i :| i in active && WaitsFor(s.rows[i], req) {
      assert Duplicates(s.rows[i], req);
    }
  }

  /** What a new active row finds: no active row it would be exclusive with. */
  lemma NewIsSingle(s: Store, req: Request, initial: OpenStatus, allow: bool, now: int, i: nat)
    requires Disciplined(s, DoCreate(req, initial, allow, now)) && Create(s, req, initial, allow, now).1.Inserted?
    requires i < |s.rows| && Active(s.rows[i].status)
    ensures var r := NewRow(req, initial, now);
            |Create(s, req, initial, allow, now).0.rows| == |s.rows| + 1
            && (Exclusive(s.rows[i], r) ==> !Active(Create(s, req, initial, allow, now).0.rows[|s.rows|].status))
  {
    if Policed(req, allow) && SingleFlightType(req.opType) {
      QueuesExactly(s, req, initial, now);
      assert Exclusive(s.rows[i], NewRow(req, initial, now)) ==> Duplicates(s.rows[i], req);
    }
  }

  /** A row that finds none of its kind active leaves single-flight intact. */
  lemma AddedSingle(s: Store, s': Store)
    requires SingleFlight(s) && |s'.rows| == |s.rows| + 1
    requires forall i :: 0 <= i < |s.rows| && Active(s'.rows[i].status) ==> s'.rows[i] == s.rows[i]
    requires forall i :: 0 <= i < |s.rows| && Active(s'.rows[i].status) && Active(s'.rows[|s.rows|].status) ==>
               !Exclusive(s'.rows[i], s'.rows[|s.rows|])
    ensures SingleFlight(s')
  {}

  /** A create keeps every world's backups, restores and same-scope cleanups single. */
  lemma CreateSingleFlight(s: Store, req: Request, initial: OpenStatus, allow: bool, now: int)
    requires SingleFlight(s) && Disciplined(s, DoCreate(req, initial, allow, now))
    ensures SingleFlight(Create(s, req, initial, allow, now).0)
  {
    var (s', outcome) := Create(s, req, initial, allow, now);
    if outcome.Inserted? {
      CreateInserts(s, req, initial, allow, now);
      forall i | 0 <= i < |s.rows| && Active(s'.rows[i].status) && Active(s'.rows[|s.rows|].status)
        ensures !Exclusive(s'.rows[i], s'.rows[|s.rows|])
      {
        NewIsSingle(s, req, initial, allow, now, i);
      }
      AddedSingle(s, s');
    }
  }

  lemma StepSingleFlight(s: Store, c: Command)
    requires SingleFlight(s) && Disciplined(s, c)
    ensures SingleFlight(Step(s, c))
  {
    match c {
      case DoCreate(req, initial, allow, now) => CreateSingleFlight(s, req, initial, allow, now);
      case DoClaim(id, now) =>
      case DoTransition(id, status, change, now) =>
        var s' := Step(s, c);
        forall i | 0 <= i < |s.rows| && Active(s'.rows[i].status) && SingleFlightType(s.rows[i].opType)
          ensures Active(s.rows[i].status) && s'.rows[i].opType == s.rows[i].opType
          ensures s'.rows[i].worldId == s.rows[i].worldId && s'.rows[i].data == s.rows[i].data
        {}
        assert forall i :: 0 <= i < |s.rows| ==> s'.rows[i].opType == s.rows[i].opType;
    }
  }

  /** In a disciplined run, each world runs at most one backup, one restore, and one cleanup per scope. */
  lemma {:induction false} RunSingleFlight(s: Store, cs: seq<Command>)
    requires SingleFlight(s) && DisciplinedRun(s, cs)
    ensures SingleFlight(Run(s, cs))
    decreases |cs|
  {
    if cs != [] {
      StepSingleFlight(s, cs[0]);
      RunSingleFlight(Step(s, cs[0]), cs[1..]);
    }
  }

  /** A successful claim finds its world idle, and afterwards it is the only active operation there. */
  lemma ClaimExcludes(s: Store, id: nat, now: int)
    requires id < |s.rows| && s.rows[id].worldId.Some?
    ensures Claim(s, id, now) != s <==>
              s.rows[id].status == Queued
              && forall j :: 0 <= j < |s.rows| && s.rows[j].worldId == s.rows[id].worldId ==> !Active(s.rows[j].status)
    ensures Claim(s, id, now) != s ==>
              forall j :: 0 <= j < |s.rows| && s.rows[j].worldId == s.rows[id].worldId ==>
                (Active(Claim(s, id, now).rows[j].status) <==> j == id)
  {}
}
