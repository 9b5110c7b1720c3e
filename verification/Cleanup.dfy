/**
  Backup retention: which artifacts a cleanup may delete, the grouping loop that finds them,
  and what no run of backups and cleanups can ever delete.

  An artifact's id is its position in the table.  World and category identifiers are numbers
  in their sort order.  Artifacts of one (world, category) group are ordered newest first by
  creation time and, for equal times, by id.
 */
module Cleanup {
  import opened Wrappers

  datatype Artifact = Artifact(world: Option<nat>, category: nat, path: string, createdAt: int,
                               suspect: bool, deletedAt: Option<int>)

  type Table = seq<Artifact>

  const AGE_FLOOR_DAYS: int := 3
  const COUNT_FLOOR: int := 3
  const BLAST_RADIUS_CAP: nat := 500
  const SECONDS_PER_DAY: int := 24 * 60 * 60

  /** A permitted policy at one moment. */
  datatype Policy = Policy(cutoff: int, keep: int, world: Option<nat>)

  predicate Live(a: Artifact) { a.deletedAt.None? }

  /** The group an artifact belongs to. */
  datatype Key = Key(world: Option<nat>, category: nat)

  function KeyOf(a: Artifact): Key { Key(a.world, a.category) }

  predicate SameGroup(a: Artifact, b: Artifact) { KeyOf(a) == KeyOf(b) }

  /** i comes before j in newest-first order. */
  predicate Newer(t: Table, i: nat, j: nat)
    requires i < |t| && j < |t|
  {
    t[i].createdAt > t[j].createdAt || (t[i].createdAt == t[j].createdAt && i > j)
  }

  // ----- The set a cleanup may delete -----

  /** The live artifacts of i's group that are newer than i. */
  function NewerLive(t: Table, i: nat): set<nat>
    requires i < |t|
  {
    set j: nat | j < |t| && Live(t[j]) && SameGroup(t[j], t[i]) && Newer(t, j, i)
  }

  predicate InScope(a: Artifact, p: Policy) { p.world.None? || a.world == p.world }

  /** Old, sound, behind at least `keep` live artifacts of its group and behind a sound one. */
  predicate Candidate(t: Table, p: Policy, i: nat) {
    && i < |t| && Live(t[i]) && InScope(t[i], p) && !t[i].suspect && t[i].createdAt < p.cutoff
    && |NewerLive(t, i)| >= p.keep
    && exists j :: j in NewerLive(t, i) && !t[j].suspect
  }

  function WorldKey(w: Option<nat>): int { if w.None? then -1 else w.value }

  predicate KeyBefore(a: Key, b: Key) {
    WorldKey(a.world) < WorldKey(b.world) || (a.world == b.world && a.category < b.category)
  }

  /** The order rows are read in: by group, newest first inside it. */
  predicate RowBefore(t: Table, i: nat, j: nat)
    requires i < |t| && j < |t|
  {
    KeyBefore(KeyOf(t[i]), KeyOf(t[j])) || (SameGroup(t[i], t[j]) && Newer(t, i, j))
  }

  /** The order candidates are listed in: oldest first, reading order for equal times. */
  predicate ListedBefore(t: Table, i: nat, j: nat)
    requires i < |t| && j < |t|
  {
    t[i].createdAt < t[j].createdAt || (t[i].createdAt == t[j].createdAt && RowBefore(t, i, j))
  }

  predicate Ids(t: Table, s: seq<nat>) {
    forall k :: 0 <= k < |s| ==> s[k] < |t|
  }

  predicate InRowOrder(t: Table, s: seq<nat>) {
    Ids(t, s) && forall j, k :: 0 <= j < k < |s| ==> RowBefore(t, s[j], s[k])
  }

  predicate InListOrder(t: Table, s: seq<nat>) {
    Ids(t, s) && forall j, k :: 0 <= j < k < |s| ==> ListedBefore(t, s[j], s[k])
  }

  /** The candidates of a policy, listed in order. */
  ghost predicate Lists(t: Table, p: Policy, out: seq<nat>) {
    InListOrder(t, out) && forall i: nat :: i in out <==> Candidate(t, p, i)
  }

  lemma LastIsGreatest(t: Table, s: seq<nat>, i: nat)
    requires InListOrder(t, s) && i in s
    ensures i == s[|s| - 1] || ListedBefore(t, i, s[|s| - 1])
    ensures s[|s| - 1] !in s[..|s| - 1]
  {}

  /** There is only one such list. */
  lemma {:induction false} SortedUnique(t: Table, a: seq<nat>, b: seq<nat>)
    requires InListOrder(t, a) && InListOrder(t, b)
    requires forall i: nat :: i in a <==> i in b
    ensures a == b
  {
    if a != [] && b != [] {
      var m, n := |a| - 1, |b| - 1;
      assert a[m] in b && b[n] in a;
      LastIsGreatest(t, b, a[m]);
      LastIsGreatest(t, a, b[n]);
      assert a == a[..m] + [a[m]] && b == b[..n] + [b[n]];
      forall i: nat ensures i in a[..m] <==> i in b[..n] {
        assert i in a <==> i in a[..m] || i == a[m];
        assert i in b <==> i in b[..n] || i == b[n];
      }
      SortedUnique(t, a[..m], b[..n]);
    } else {
      HasMember(a);
      HasMember(b);
    }
  }

  lemma HasMember(s: seq<nat>)
    ensures s != [] ==> exists i: nat :: i in s
  {
    if s != [] {
      assert s[0] in s;
    }
  }

  // ----- Consequences of the set -----

  function OfWorld(t: Table, s: seq<nat>, w: nat): seq<nat>
    requires Ids(t, s)
  {
    if s == [] then []
    else
      var n := |s| - 1;
      OfWorld(t, s[..n], w) + if t[s[n]].world == Some(w) then [s[n]] else []
  }

  lemma {:induction false} OfWorldKeeps(t: Table, s: seq<nat>, w: nat)
    requires InListOrder(t, s)
    ensures InListOrder(t, OfWorld(t, s, w))
    ensures forall i: nat :: i in OfWorld(t, s, w) <==> i in s && t[i].world == Some(w)
  {
    if s != [] {
      var n := |s| - 1;
      OfWorldKeeps(t, s[..n], w);
      var before := OfWorld(t, s[..n], w);
      forall k | 0 <= k < |before| ensures ListedBefore(t, before[k], s[n]) {
        assert before[k] in s[..n];
        var l :| 0 <= l < n && s[l] == before[k];
      }
      assert forall i: nat :: i in s <==> i in s[..n] || i == s[n];
    }
  }

  /** Cleaning one world is cleaning everything, restricted to that world, in the same order. */
  lemma ScopedIsFiltered(t: Table, p: Policy, w: nat, all: seq<nat>, scoped: seq<nat>)
    requires p.world.None? && Lists(t, p, all) && Lists(t, p.(world := Some(w)), scoped)
    ensures scoped == OfWorld(t, all, w)
  {
    OfWorldKeeps(t, all, w);
    forall i: nat ensures i in OfWorld(t, all, w) <==> i in scoped {
      assert Candidate(t, p.(world := Some(w)), i) <==> Candidate(t, p, i) && t[i].world == Some(w);
    }
    SortedUnique(t, scoped, OfWorld(t, all, w));
  }

  /** An earlier cutoff, a larger keep count or a narrower scope only removes candidates. */
  lemma StricterIsSmaller(t: Table, p: Policy, q: Policy, i: nat)
    requires q.cutoff <= p.cutoff && q.keep >= p.keep && (p.world.None? || p.world == q.world)
    requires Candidate(t, q, i)
    ensures Candidate(t, p, i)
  {}

  /** The table after a wet run: exactly the candidates are marked deleted. */
  function Cleaned(t: Table, p: Policy, now: int): (t': Table)
    ensures |t'| == |t|
    ensures forall i :: 0 <= i < |t| ==> t'[i] == if Candidate(t, p, i) then t[i].(deletedAt := Some(now)) else t[i]
  {
    seq(|t|, i requires 0 <= i < |t| => if Candidate(t, p, i) then t[i].(deletedAt := Some(now)) else t[i])
  }

  /** Right after a wet run the same policy finds nothing more. */
  lemma CleanedIsClean(t: Table, p: Policy, now: int, i: nat)
    ensures !Candidate(Cleaned(t, p, now), p, i)
  {
    if i < |t| {
      assert NewerLive(Cleaned(t, p, now), i) <= NewerLive(t, i);
      SubsetSize(NewerLive(Cleaned(t, p, now), i), NewerLive(t, i));
    }
  }

  /** A cleanup keeps every group's newest sound artifact. */
  lemma NewestSoundStays(t: Table, p: Policy, now: int, i: nat)
    requires i < |t| && Live(t[i]) && !t[i].suspect
    requires forall j :: j in NewerLive(t, i) ==> t[j].suspect
    ensures Live(Cleaned(t, p, now)[i])
  {}

  // ----- Runs -----

  datatype Command =
    | Backup(a: Artifact)
    | Flag(id: nat)
    | Clean(olderThanDays: int, keep: int, world: Option<nat>, now: int, deletionTime: int)

  function PolicyAt(olderThanDays: int, keep: int, world: Option<nat>, now: int): Policy {
    Policy(now - olderThanDays * SECONDS_PER_DAY, keep, world)
  }

  /** New artifacts are live; cleanups respect both floors and delete after they have looked. */
  predicate Permitted(c: Command) {
    match c
    case Backup(a) => Live(a)
    case Flag(id) => true
    case Clean(days, keep, world, now, deletionTime) =>
      days >= AGE_FLOOR_DAYS && keep >= COUNT_FLOOR && now <= deletionTime
  }

  function Step(t: Table, c: Command): Table {
    match c
    case Backup(a) => t + [a]
    case Flag(id) => if id < |t| then t[id := t[id].(suspect := true)] else t
    case Clean(days, keep, world, now, deletionTime) => Cleaned(t, PolicyAt(days, keep, world, now), deletionTime)
  }

  function Run(t: Table, cs: seq<Command>): Table
    decreases |cs|
  {
    if cs == [] then t else Run(Step(t, cs[0]), cs[1..])
  }

  /** The artifacts ever recorded in i's group that are newer than i, deleted or not. */
  function NewerEver(t: Table, i: nat): set<nat>
    requires i < |t|
  {
    set j: nat | j < |t| && SameGroup(t[j], t[i]) && Newer(t, j, i)
  }

  /** Whatever is deleted has three newer artifacts on record in its group. */
  predicate NewestThreeLive(t: Table) {
    forall i :: 0 <= i < |t| && |NewerEver(t, i)| < 3 ==> Live(t[i])
  }

  lemma StepKeepsNewestThree(t: Table, c: Command)
    requires NewestThreeLive(t) && Permitted(c)
    ensures NewestThreeLive(Step(t, c))
  {
    var t' := Step(t, c);
    forall i | 0 <= i < |t'| && |NewerEver(t', i)| < 3 ensures Live(t'[i]) {
      if i < |t| {
        assert NewerEver(t, i) <= NewerEver(t', i);
        SubsetSize(NewerEver(t, i), NewerEver(t', i));
        if c.Clean? && Candidate(t, PolicyAt(c.olderThanDays, c.keep, c.world, c.now), i) {
          assert NewerLive(t, i) <= NewerEver(t, i);
          SubsetSize(NewerLive(t, i), NewerEver(t, i));
        }
      }
    }
  }

  /**
    Over any run of backups, suspicions and permitted cleanups, the three newest artifacts
    ever recorded in each group, or all of them when there are fewer, are still live.
   */
  lemma {:induction false} RunKeepsNewestThree(t: Table, cs: seq<Command>)
    requires NewestThreeLive(t) && forall k :: 0 <= k < |cs| ==> Permitted(cs[k])
    ensures NewestThreeLive(Run(t, cs))
    decreases |cs|
  {
    if cs != [] {
      StepKeepsNewestThree(t, cs[0]);
      RunKeepsNewestThree(Step(t, cs[0]), cs[1..]);
    }
  }

  /** Nothing was deleted within three days of its creation. */
  predicate KeptThreeDays(t: Table) {
    forall i :: 0 <= i < |t| && t[i].deletedAt.Some? ==> t[i].deletedAt.value > t[i].createdAt + 259200
  }

  /** Over any such run, no artifact is marked deleted within its first three days. */
  lemma {:induction false} RunKeepsThreeDays(t: Table, cs: seq<Command>)
    requires KeptThreeDays(t) && forall k :: 0 <= k < |cs| ==> Permitted(cs[k])
    ensures forall i :: 0 <= i < |Run(t, cs)| && Run(t, cs)[i].deletedAt.Some? ==>
              Run(t, cs)[i].deletedAt.value > Run(t, cs)[i].createdAt + 259200
    decreases |cs|
  {
    if cs != [] {
      assert KeptThreeDays(Step(t, cs[0]));
      RunKeepsThreeDays(Step(t, cs[0]), cs[1..]);
    }
  }

  // ----- The set in words -----

  /** The live artifacts that come before i in its group, newest first, later rows first among equal times. */
  lemma NewerInWords(t: Table, i: nat, j: nat)
    requires i < |t|
    ensures j in NewerLive(t, i) <==>
              && j < |t| && t[j].deletedAt.None? && t[j].world == t[i].world && t[j].category == t[i].category
              && (t[j].createdAt > t[i].createdAt || (t[j].createdAt == t[i].createdAt && j > i))
  {}

  /** What a policy of so many days, looked at now, may delete. */
  lemma CandidateInWords(t: Table, olderThanDays: int, keep: int, world: Option<nat>, now: int, i: nat)
    ensures Candidate(t, PolicyAt(olderThanDays, keep, world, now), i) <==>
              && i < |t| && t[i].deletedAt.None? && !t[i].suspect && (world.None? || t[i].world == world)
              && t[i].createdAt < now - olderThanDays * 86400
              && |NewerLive(t, i)| >= keep && exists j :: j in NewerLive(t, i) && !t[j].suspect
  {}

  /** Candidates are listed once each, oldest first. */
  lemma ListsInWords(t: Table, p: Policy, out: seq<nat>)
    requires Lists(t, p, out)
    ensures forall i: nat :: i in out <==> Candidate(t, p, i)
    ensures forall j, k :: 0 <= j < k < |out| ==> out[j] != out[k] && t[out[j]].createdAt <= t[out[k]].createdAt
  {
    forall j, k | 0 <= j < k < |out| ensures out[j] != out[k] && t[out[j]].createdAt <= t[out[k]].createdAt {
      assert ListedBefore(t, out[j], out[k]);
    }
  }
}
