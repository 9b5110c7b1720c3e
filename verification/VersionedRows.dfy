/**
  Optimistic concurrency on one versioned row: editors that name the version they saw, and
  queued operations that may be replayed after the manager crashed between committing their
  effect and recording that they were done.

  Every step is one transaction; steps of editors, dispatchers and state writers interleave
  in any order.  The row may be absent, which counts as version zero.
 */
module VersionedRows {
  import opened Wrappers

  datatype Row = Row(version: nat, fields: map<string, string>, off: bool, deleted: bool, deletedBy: Option<string>)

  /** What a queued operation asks for; both name the version they were previewed at. */
  datatype Request =
    | Delete(actor: Option<string>, expected: nat)
    | RuntimeConfig(after: map<string, string>, expected: nat)

  datatype Status = Queued | Running | Completed | Failed

  datatype Mutation = Mutation(request: Request, status: Status)

  datatype Writer = Editor | Operation(k: nat)

  /** A version bump: who made it, and the version they expected. */
  datatype Commit = Commit(writer: Writer, expected: nat)

  datatype State = State(row: Option<Row>, ops: seq<Mutation>, log: seq<Commit>)

  function VersionOf(row: Option<Row>): nat {
    if row.None? then 0 else row.value.version
  }

  // ----- The transactions, on the row alone -----

  datatype Failure = Missing | Conflict | NotOff | NoActor | NoFields

  /**
    A compare-and-set edit.  `creating` was decided before the transaction, when the row was
    absent and the editor expected version zero.
   */
  function EditRow(row: Option<Row>, creating: bool, expected: nat, fields: map<string, string>, hasActor: bool)
    : Result<Row, Failure>
  {
    if fields == map[] then Err(NoFields)
    else match row
    case None =>
      if !creating then Err(Missing)
      else if !hasActor then Err(NoActor)
      else Ok(Row(1, fields, true, false, None))
    case Some(r) =>
      if r.version != expected then Err(Conflict)
      else Ok(r.(version := r.version + 1, fields := r.fields + fields))
  }

  /** The row shows the effect of the request, whoever caused it. */
  predicate Shows(r: Row, req: Request) {
    match req
    case Delete(actor, _) => r.deleted && r.deletedBy == actor
    case RuntimeConfig(after, _) => !r.deleted && Carries(r.fields, after)
  }

  predicate Carries(fields: map<string, string>, after: map<string, string>) {
    forall key :: key in after ==> key in fields && fields[key] == after[key]
  }

  /**
    The effect of a queued operation.  `Ok(row)` with the row unchanged is what a replay gets,
    and so does any operation that finds its effect at the next version already.
   */
  function ApplyRow(row: Option<Row>, req: Request): Result<Row, Failure> {
    if row.None? then Err(Missing)
    else
      var r := row.value;
      match req
      case Delete(actor, expected) =>
        if r.deleted && r.deletedBy == actor && r.version == expected + 1 then Ok(r)
        else if r.deleted || !r.off || r.version != expected then Err(Conflict)
        else Ok(r.(deleted := true, deletedBy := actor, version := r.version + 1))
      case RuntimeConfig(after, expected) =>
        if r.deleted then Err(Missing)
        else if r.version == expected + 1 && Carries(r.fields, after) then Ok(r)
        else if r.version != expected then Err(Conflict)
        else if !r.off then Err(NotOff)
        else Ok(r.(fields := r.fields + after, version := r.version + 1))
  }

  /** Only the named fields and the version differ. */
  predicate Written(r: Row, r': Row, fields: map<string, string>) {
    && r'.version == r.version + 1 && r'.off == r.off && r'.deleted == r.deleted && r'.deletedBy == r.deletedBy
    && r'.fields.Keys == r.fields.Keys + fields.Keys
    && (forall key :: key in fields ==> r'.fields[key] == fields[key])
    && (forall key :: key in r.fields && key !in fields ==> r'.fields[key] == r.fields[key])
  }

  /** An edit commits exactly when it names a field and the row is at the version it expects, or to be created. */
  lemma EditInWords(row: Option<Row>, creating: bool, expected: nat, fields: map<string, string>, hasActor: bool)
    ensures var result := EditRow(row, creating, expected, fields, hasActor);
            && (result.Ok? <==> |fields.Keys| > 0
                                && if row.Some? then row.value.version == expected else creating && hasActor)
            && (result.Ok? && row.Some? ==> Written(row.value, result.value, fields))
            && (result.Ok? && row.None? ==>
                  result.value.version == 1 && result.value.fields == fields && !result.value.deleted)
            && (result == Err(Conflict) <==> |fields.Keys| > 0 && row.Some? && row.value.version != expected)
            && (result == Err(NoFields) <==> |fields.Keys| == 0)
            && (result == Err(NoActor) <==> |fields.Keys| > 0 && row.None? && creating && !hasActor)
            && (result == Err(Missing) <==> |fields.Keys| > 0 && row.None? && !creating)
  {
    if |fields.Keys| == 0 {
      assert fields.Keys == {};
    }
  }

  /**
    A queued deletion takes effect on an off, undeleted world at the version it was asked for;
    on a world its actor deleted to the next version it does nothing; anything else is refused.
   */
  lemma DeleteInWords(r: Row, actor: Option<string>, expected: nat)
    ensures var result := ApplyRow(Some(r), Delete(actor, expected));
            if !r.deleted && r.off && r.version == expected then
              result == Ok(Row(r.version + 1, r.fields, true, true, actor))
            else if r.deleted && r.deletedBy == actor && r.version == expected + 1 then result == Ok(r)
            else result == Err(Conflict)
  {}

  /**
    A queued configuration takes effect on an off world at the version it was asked for; on a
    world that carries it at the next version, running or not, it does nothing; anything else
    is refused.
   */
  lemma ConfigInWords(r: Row, after: map<string, string>, expected: nat)
    ensures var result := ApplyRow(Some(r), RuntimeConfig(after, expected));
            var carried := forall key :: key in after ==> key in r.fields && r.fields[key] == after[key];
            if r.deleted then result == Err(Missing)
            else if r.version == expected then
              if r.off then result.Ok? && Written(r, result.value, after) else result == Err(NotOff)
            else if r.version == expected + 1 && carried then result == Ok(r)
            else result == Err(Conflict)
  {}

  // ----- Steps -----

  datatype Command =
    | Edit(creating: bool, expected: nat, fields: map<string, string>, hasActor: bool)
    | Enqueue(request: Request)
    | Claim(k: nat)
    | Dispatch(k: nat, crash: bool)
    | SetState(off: bool)

  /** A creating editor expects version zero. */
  predicate Sensible(c: Command) {
    c.Edit? && c.creating ==> c.expected == 0
  }

  function Committed(s: State, row: Row, writer: Writer, expected: nat): State {
    s.(row := Some(row), log := if row.version == VersionOf(s.row) then s.log else s.log + [Commit(writer, expected)])
  }

  /** Run or replay an operation; a crash loses the outcome, not the committed effect. */
  function Dispatched(s: State, k: nat, crash: bool): State {
    if k >= |s.ops| || s.ops[k].status.Completed? || s.ops[k].status.Failed? then s
    else
      var result := ApplyRow(s.row, s.ops[k].request);
      var status := if crash then Running else if result.Ok? then Completed else Failed;
      var s' := if result.Ok? then Committed(s, result.value, Operation(k), s.ops[k].request.expected) else s;
      s'.(ops := s.ops[k := s.ops[k].(status := status)])
  }

  function Step(s: State, c: Command): State {
    match c
    case Edit(creating, expected, fields, hasActor) =>
      var result := EditRow(s.row, creating, expected, fields, hasActor);
      if result.Ok? then Committed(s, result.value, Editor, expected) else s
    case Enqueue(request) => s.(ops := s.ops + [Mutation(request, Queued)])
    case Claim(k) =>
      if k < |s.ops| && s.ops[k].status.Queued? then s.(ops := s.ops[k := s.ops[k].(status := Running)]) else s
    case Dispatch(k, crash) => Dispatched(s, k, crash)
    case SetState(off) => if s.row.Some? then s.(row := Some(s.row.value.(off := off))) else s
  }

  function Run(s: State, cs: seq<Command>): State
    decreases |cs|
  {
    if cs == [] then s else Run(Step(s, cs[0]), cs[1..])
  }

  lemma {:induction false} RunThen(s: State, cs: seq<Command>, ds: seq<Command>)
    ensures Run(s, cs + ds) == Run(Run(s, cs), ds)
    decreases |cs|
  {
    if cs == [] {
      assert cs + ds == ds;
    } else {
      assert (cs + ds)[1..] == cs[1..] + ds;
      RunThen(Step(s, cs[0]), cs[1..], ds);
    }
  }

  /**
    What a dispatcher does with the k-th operation it has read: nothing if its claim is refused
    or the manager has crashed before; the crash comes between effect and outcome.
   */
  function Turn(ops: seq<Mutation>, k: nat, refused: set<nat>, crashAt: nat): seq<Command>
    requires k < |ops|
  {
    if k > crashAt || (ops[k].status.Queued? && k in refused) then [] else [Dispatch(k, k == crashAt)]
  }

  function Turns(ops: seq<Mutation>, n: nat, refused: set<nat>, crashAt: nat): seq<Command>
    requires n <= |ops|
  {
    if n == 0 then [] else Turns(ops, n - 1, refused, crashAt) + Turn(ops, n - 1, refused, crashAt)
  }

  /** The state after the dispatcher's first n turns. */
  ghost function Round(s: State, ops: seq<Mutation>, n: nat, refused: set<nat>, crashAt: nat): State
    requires n <= |ops|
  {
    Run(s, Turns(ops, n, refused, crashAt))
  }

  lemma NoTurns(s: State, ops: seq<Mutation>, refused: set<nat>, crashAt: nat)
    ensures Round(s, ops, 0, refused, crashAt) == s
  {}

  lemma TurnTaken(s: State, ops: seq<Mutation>, k: nat, refused: set<nat>, crashAt: nat)
    requires k < |ops| && k <= crashAt
    ensures var before := Round(s, ops, k, refused, crashAt);
            Round(s, ops, k + 1, refused, crashAt)
            == if ops[k].status.Queued? && k in refused then before else Dispatched(before, k, k == crashAt)
  {
    var before := Run(s, Turns(ops, k, refused, crashAt));
    RunThen(s, Turns(ops, k, refused, crashAt), Turn(ops, k, refused, crashAt));
    var c := Dispatch(k, k == crashAt);
    assert Run(before, [c]) == Run(Step(before, c), [c][1..]);
  }

  lemma {:induction false} NothingAfterCrash(ops: seq<Mutation>, n: nat, refused: set<nat>, crashAt: nat)
    requires crashAt < n <= |ops|
    ensures Turns(ops, n, refused, crashAt) == Turns(ops, crashAt + 1, refused, crashAt)
    decreases n
  {
    if n > crashAt + 1 {
      NothingAfterCrash(ops, n - 1, refused, crashAt);
    }
  }

  predicate AllSensible(cs: seq<Command>) { forall k :: 0 <= k < |cs| ==> Sensible(cs[k]) }

  // ----- Versions count commits -----

  /** The i-th commit took the row from version base + i to base + i + 1. */
  predicate Counts(s: State, base: nat) {
    && VersionOf(s.row) == base + |s.log|
    && (forall i :: 0 <= i < |s.log| ==> s.log[i].expected == base + i)
    && (forall i :: 0 <= i < |s.log| && s.log[i].writer.Operation? ==>
          s.log[i].writer.k < |s.ops| && s.log[i].expected == s.ops[s.log[i].writer.k].request.expected)
  }

  lemma StepCounts(s: State, c: Command, base: nat)
    requires Counts(s, base) && Sensible(c)
    ensures Counts(Step(s, c), base)
  {}

  lemma {:induction false} RunCounts(s: State, cs: seq<Command>, base: nat)
    requires Counts(s, base) && AllSensible(cs)
    ensures Counts(Run(s, cs), base)
    decreases |cs|
  {
    if cs != [] {
      StepCounts(s, cs[0], base);
      RunCounts(Step(s, cs[0]), cs[1..], base);
    }
  }

  /** In every run the version counts the commits. */
  lemma VersionCountsCommits(row: Option<Row>, cs: seq<Command>)
    requires AllSensible(cs)
    ensures var s := Run(State(row, [], []), cs);
            VersionOf(s.row) == VersionOf(row) + |s.log|
  {
    RunCounts(State(row, [], []), cs, VersionOf(row));
  }

  /** In every run no two commits expected one version, and no operation, however often replayed, committed twice. */
  lemma CommitsAreExclusive(row: Option<Row>, cs: seq<Command>, i: nat, j: nat)
    requires AllSensible(cs)
    requires i < j < |Run(State(row, [], []), cs).log|
    ensures var s := Run(State(row, [], []), cs);
            && s.log[i].expected != s.log[j].expected
            && (s.log[i].writer.Operation? ==> s.log[i].writer != s.log[j].writer)
  {
    RunCounts(State(row, [], []), cs, VersionOf(row));
  }

  // ----- Replays after a crash -----

  lemma StepLog(s: State, c: Command, base: nat)
    requires Counts(s, base) && Sensible(c)
    ensures |s.log| <= |Step(s, c).log|
    ensures s.row.Some? ==> Step(s, c).row.Some?
    ensures s.row.Some? && |Step(s, c).log| == |s.log| ==>
              Step(s, c).row.value == s.row.value.(off := Step(s, c).row.value.off)
    ensures |s.ops| <= |Step(s, c).ops|
    ensures forall k :: 0 <= k < |s.ops| ==> Step(s, c).ops[k].request == s.ops[k].request
  {}

  /** The row changes only with its version, apart from the world's running state. */
  lemma {:induction false} RunLog(s: State, cs: seq<Command>, base: nat)
    requires Counts(s, base) && AllSensible(cs) && s.row.Some?
    ensures |s.log| <= |Run(s, cs).log| && Run(s, cs).row.Some?
    ensures |Run(s, cs).log| == |s.log| ==> Run(s, cs).row.value == s.row.value.(off := Run(s, cs).row.value.off)
    ensures |s.ops| <= |Run(s, cs).ops|
    ensures forall k :: 0 <= k < |s.ops| ==> Run(s, cs).ops[k].request == s.ops[k].request
    decreases |cs|
  {
    if cs != [] {
      StepLog(s, cs[0], base);
      StepCounts(s, cs[0], base);
      RunLog(Step(s, cs[0]), cs[1..], base);
    }
  }

  /** After its effect is committed, an operation is recognised at the next version and only there. */
  lemma CommittedIsRecognised(s: State, k: nat, base: nat)
    requires Counts(s, base) && k < |s.ops| && !s.ops[k].status.Completed? && !s.ops[k].status.Failed?
    requires |Dispatched(s, k, true).log| > |s.log|
    ensures var s1 := Dispatched(s, k, true);
            && s1.row.Some? && s1.row.value.version == s.ops[k].request.expected + 1
            && forall off :: ApplyRow(Some(s1.row.value.(off := off)), s.ops[k].request)
                             == Ok(s1.row.value.(off := off))
  {}

  lemma LaterVersionConflicts(row: Row, req: Request)
    requires row.version > req.expected + 1
    ensures ApplyRow(Some(row), req).Err?
  {}

  /**
    A dispatcher commits an operation's effect and crashes.  Whatever happens meanwhile, the
    replay changes nothing, and it reports success exactly when nobody else committed to the
    row in between; otherwise the operation is marked failed although it did commit, and
    whether its effect is still there depends on what the others wrote.
   */
  lemma ReplayExactly(s: State, k: nat, cs: seq<Command>, base: nat)
    requires Counts(s, base) && AllSensible(cs)
    requires k < |s.ops| && !s.ops[k].status.Completed? && !s.ops[k].status.Failed?
    requires |Dispatched(s, k, true).log| > |s.log|
    requires var before := Run(Dispatched(s, k, true), cs); k < |before.ops| && before.ops[k].status == Running
    ensures var crashed := Dispatched(s, k, true);
            var before := Run(crashed, cs);
            var after := Dispatched(before, k, false);
            && after.row == before.row && after.log == before.log
            && (after.ops[k].status == Completed <==> |before.log| == |crashed.log|)
            && (after.ops[k].status == Failed <==> |before.log| > |crashed.log|)
  {
    var crashed := Dispatched(s, k, true);
    var before := Run(crashed, cs);
    StepCounts(s, Dispatch(k, true), base);
    RunCounts(crashed, cs, base);
    CommittedIsRecognised(s, k, base);
    RunLog(crashed, cs, base);
    if |before.log| > |crashed.log| {
      LaterVersionConflicts(before.row.value, s.ops[k].request);
    }
  }

  predicate HasCommitted(s: State, k: nat) {
    exists i :: 0 <= i < |s.log| && s.log[i].writer == Operation(k)
  }

  /**
    An operation ends completed without ever having committed exactly when the row stands at
    the version its own commit would have produced, shows its effect, and got there by
    somebody else's commit, or stood there from the start.
   */
  lemma CompletedByOthersExactly(s: State, k: nat, base: nat)
    requires Counts(s, base) && k < |s.ops| && !s.ops[k].status.Completed? && !s.ops[k].status.Failed?
    ensures var after := Dispatched(s, k, false);
            after.ops[k].status == Completed && !HasCommitted(after, k)
            <==> && s.row.Some? && s.row.value.version == s.ops[k].request.expected + 1
                 && Shows(s.row.value, s.ops[k].request)
                 && (s.log == [] || s.log[|s.log| - 1].writer != Operation(k))
  {
    var req := s.ops[k].request;
    var after := Dispatched(s, k, false);
    StepCounts(s, Dispatch(k, false), base);
    if s.row.Some? && s.row.value.version == req.expected + 1 {
      assert HasCommitted(s, k) <==> s.log != [] && s.log[|s.log| - 1].writer == Operation(k);
      assert after.log == s.log;
    } else if after.ops[k].status == Completed {
      assert after.log == s.log + [Commit(Operation(k), req.expected)];
      assert after.log[|s.log|].writer == Operation(k);
    }
  }

  // ----- Concrete runs -----

  lemma {:induction false} RunUnfolds(s: State, c: Command, cs: seq<Command>)
    ensures Run(s, [c] + cs) == Run(Step(s, c), cs)
  {
    assert ([c] + cs)[1..] == cs;
  }

  /**
    A runtime configuration commits, the manager crashes, and an editor writes `value` before
    the replay: the operation is recorded as failed although it committed, and the row shows
    what the editor wrote, the same value or another.
   */
  lemma FailedAfterCommitting(value: string)
    ensures var row := Row(1, map["k" := "a"], true, false, None);
            var s := Run(State(Some(row), [], []),
                         [Enqueue(RuntimeConfig(map["k" := "b"], 1)), Dispatch(0, true),
                          Edit(false, 2, map["k" := value], true), Dispatch(0, false)]);
            && s.ops == [Mutation(RuntimeConfig(map["k" := "b"], 1), Failed)]
            && s.log == [Commit(Operation(0), 1), Commit(Editor, 2)]
            && s.row == Some(row.(version := 3, fields := map["k" := value]))
  {
    var row := Row(1, map["k" := "a"], true, false, None);
    var s0 := State(Some(row), [], []);
    var c1, c2 := Enqueue(RuntimeConfig(map["k" := "b"], 1)), Dispatch(0, true);
    var c3, c4 := Edit(false, 2, map["k" := value], true), Dispatch(0, false);
    var s1 := Step(s0, c1);
    var s2 := Step(s1, c2);
    var s3 := Step(s2, c3);
    assert [c1, c2, c3, c4] == [c1] + ([c2] + ([c3] + ([c4] + [])));
    RunUnfolds(s0, c1, [c2] + ([c3] + ([c4] + [])));
    RunUnfolds(s1, c2, [c3] + ([c4] + []));
    RunUnfolds(s2, c3, [c4] + []);
    RunUnfolds(s3, c4, []);
    assert map["k" := "a"] + map["k" := "b"] == map["k" := "b"];
    assert map["k" := "b"] + map["k" := value] == map["k" := value];
    assert s2 == State(Some(row.(version := 2, fields := map["k" := "b"])),
                       [Mutation(c1.request, Running)], [Commit(Operation(0), 1)]);
    assert "k" in c3.fields;
    assert s3.row == Some(row.(version := 3, fields := map["k" := value]));
  }

  /** Two deletions one actor asked for at the same version both complete, on one commit. */
  lemma TwoDeletionsOneCommit(actor: Option<string>)
    ensures var row := Row(1, map[], true, false, None);
            var s := Run(State(Some(row), [], []),
                         [Enqueue(Delete(actor, 1)), Enqueue(Delete(actor, 1)),
                          Dispatch(0, false), Dispatch(1, false)]);
            && s.ops == [Mutation(Delete(actor, 1), Completed), Mutation(Delete(actor, 1), Completed)]
            && s.log == [Commit(Operation(0), 1)] && !HasCommitted(s, 1)
  {
    var s0 := State(Some(Row(1, map[], true, false, None)), [], []);
    var c, c3, c4 := Enqueue(Delete(actor, 1)), Dispatch(0, false), Dispatch(1, false);
    var s1 := Step(s0, c);
    var s2 := Step(s1, c);
    var s3 := Step(s2, c3);
    assert [c, c, c3, c4] == [c] + ([c] + ([c3] + ([c4] + [])));
    RunUnfolds(s0, c, [c] + ([c3] + ([c4] + [])));
    RunUnfolds(s1, c, [c3] + ([c4] + []));
    RunUnfolds(s2, c3, [c4] + []);
    RunUnfolds(s3, c4, []);
  }

  // ----- The transactions as they are written -----

  class VersionedStore {
    var row: Option<Row>
    var ops: seq<Mutation>
    ghost var log: seq<Commit>

    ghost function Now(): State
      reads this
    {
      State(row, ops, log)
    }

    constructor (row: Option<Row>)
      ensures Now() == State(row, [], [])
    {
      this.row, ops, log := row, [], [];
    }

    method UpdateVersioned(creating: bool, expected: nat, fields: map<string, string>, hasActor: bool)
      returns (r: Result<Row, Failure>)
      modifies this`row, this`log
      ensures r == EditRow(old(row), creating, expected, fields, hasActor)
      ensures Now() == Step(old(Now()), Edit(creating, expected, fields, hasActor))
    {
      if fields == map[] {
        return Err(NoFields);
      }
      if row.None? && !creating {
        return Err(Missing);
      }
      if row.Some? && row.value.version != expected {
        return Err(Conflict);
      }
      if row.None? {
        if !hasActor {
          return Err(NoActor);
        }
        row := Some(Row(1, fields, true, false, None));
      } else {
        var current := row.value;
        row := Some(current.(fields := current.fields + fields, version := current.version + 1));
      }
      log := log + [Commit(Editor, expected)];
      return Ok(row.value);
    }

    method ApplyQueuedWorldDelete(actor: Option<string>, expected: nat) returns (r: Result<Row, Failure>)
      modifies this`row
      ensures r == ApplyRow(old(row), Delete(actor, expected))
      ensures row == if r.Ok? then Some(r.value) else old(row)
    {
      if row.None? {
        return Err(Missing);
      }
      var world := row.value;
      if world.deleted && world.deletedBy == actor && world.version == expected + 1 {
        return Ok(world);
      }
      if world.deleted || !world.off || world.version != expected {
        return Err(Conflict);
      }
      row := Some(world.(deleted := true, deletedBy := actor, version := world.version + 1));
      return Ok(row.value);
    }

    method ApplyQueuedRuntimeConfig(after: map<string, string>, expected: nat) returns (r: Result<Row, Failure>)
      modifies this`row
      ensures r == ApplyRow(old(row), RuntimeConfig(after, expected))
      ensures row == if r.Ok? then Some(r.value) else old(row)
    {
      if row.None? || row.value.deleted {
        return Err(Missing);
      }
      var world := row.value;
      if world.version == expected + 1 && Carries(world.fields, after) {
        return Ok(world);
      }
      if world.version != expected {
        return Err(Conflict);
      }
      if !world.off {
        return Err(NotOff);
      }
      row := Some(world.(fields := world.fields + after, version := world.version + 1));
      return Ok(row.value);
    }

    /**
      One round of the dispatcher over the operations it read at the start, with the claims
      that are refused and the position at which the manager crashes, if it does.
     */
    method DispatchQueuedMutations(refused: set<nat>, crashAt: nat)
      modifies this
      ensures Now() == Run(old(Now()), Turns(old(ops), |old(ops)|, refused, crashAt))
    {
      var read := ops;
      ghost var start := Now();
      var k := 0;
      NoTurns(start, read, refused, crashAt);
      while k < |read| && k <= crashAt
        invariant 0 <= k <= |read| == |ops| && k <= crashAt + 1
        invariant Now() == Round(start, read, k, refused, crashAt)
      {
        TurnTaken(start, read, k, refused, crashAt);
        if !(read[k].status.Queued? && k in refused) {
          DispatchOne(k, k == crashAt);
        }
        k := k + 1;
      }
      if crashAt < |read| {
        NothingAfterCrash(read, |read|, refused, crashAt);
      }
    }

    method DispatchOne(k: nat, crash: bool)
      requires k < |ops|
      modifies this
      ensures Now() == Dispatched(old(Now()), k, crash)
      ensures |ops| == |old(ops)|
    {
      if ops[k].status.Completed? || ops[k].status.Failed? {
        return;
      }
      ops := ops[k := ops[k].(status := Running)];
      ghost var before := row;
      var r;
      match ops[k].request {
        case Delete(actor, expected) => r := ApplyQueuedWorldDelete(actor, expected);
        case RuntimeConfig(after, expected) => r := ApplyQueuedRuntimeConfig(after, expected);
      }
      if r.Ok? && r.value.version != VersionOf(before) {
        log := log + [Commit(Operation(k), ops[k].request.expected)];
      }
      if !crash {
        ops := ops[k := ops[k].(status := if r.Ok? then Completed else Failed)];
      }
    }
  }
}
