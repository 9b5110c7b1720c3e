/**
  The cleanup service as it is written: one query, a grouping loop, a candidate loop per
  group, a stable sort, and deletion bound to a preview.
 */
module CleanupService {
  import opened Wrappers
  import opened Cleanup

  datatype RetentionError = AgeFloor | CountFloor | BlastRadius | PreviewRequiredOrStale

  // ----- Ordered reading -----

  function InsertRow(t: Table, s: seq<nat>, i: nat): (out: seq<nat>)
    requires Ids(t, s) && i < |t|
    ensures Ids(t, out) && forall j: nat :: j in out <==> j in s || j == i
  {
    if s == [] then [i]
    else
      var n := |s| - 1;
      assert s == s[..n] + [s[n]];
      if RowBefore(t, s[n], i) then s + [i] else InsertRow(t, s[..n], i) + [s[n]]
  }

  lemma RowBeforeThrough(t: Table, i: nat, j: nat, k: nat)
    requires i < |t| && j < |t| && k < |t| && RowBefore(t, i, j) && RowBefore(t, j, k)
    ensures RowBefore(t, i, k)
  {}

  lemma EitherRowBefore(t: Table, i: nat, j: nat)
    requires i < |t| && j < |t| && i != j
    ensures RowBefore(t, i, j) || RowBefore(t, j, i)
  {}

  lemma AppendRow(t: Table, s: seq<nat>, i: nat)
    requires InRowOrder(t, s) && i < |t| && forall k :: 0 <= k < |s| ==> RowBefore(t, s[k], i)
    ensures InRowOrder(t, s + [i])
  {}

  lemma {:induction false} InsertRowOrdered(t: Table, s: seq<nat>, i: nat)
    requires InRowOrder(t, s) && i < |t| && i !in s
    ensures InRowOrder(t, InsertRow(t, s, i))
  {
    if s != [] {
      var n := |s| - 1;
      var front, last := s[..n], s[n];
      if RowBefore(t, last, i) {
        forall k | 0 <= k < |s| ensures RowBefore(t, s[k], i) {
          if k < n {
            RowBeforeThrough(t, s[k], last, i);
          }
        }
        AppendRow(t, s, i);
      } else {
        EitherRowBefore(t, i, last);
        InsertRowOrdered(t, front, i);
        var inner := InsertRow(t, front, i);
        forall k | 0 <= k < |inner| ensures RowBefore(t, inner[k], last) {
          assert inner[k] in inner;
        }
        AppendRow(t, inner, last);
      }
    }
  }

  predicate InQuery(t: Table, world: Option<nat>, i: nat) {
    i < |t| && Live(t[i]) && (world.None? || t[i].world == world)
  }

  /** The query's result: the live rows in scope, in reading order. */
  ghost predicate Selected(t: Table, world: Option<nat>, rows: seq<nat>) {
    InRowOrder(t, rows) && forall i: nat :: i in rows <==> InQuery(t, world, i)
  }

  /** The live rows in scope, among the first n of the table, in reading order. */
  function SelectLive(t: Table, world: Option<nat>, n: nat): (out: seq<nat>)
    requires n <= |t|
    ensures Ids(t, out)
    ensures forall i: nat :: i in out <==> i < n && InQuery(t, world, i)
  {
    if n == 0 then []
    else
      var rest := SelectLive(t, world, n - 1);
      if InQuery(t, world, n - 1) then InsertRow(t, rest, n - 1) else rest
  }

  lemma {:induction false} SelectLiveOrdered(t: Table, world: Option<nat>, n: nat)
    requires n <= |t|
    ensures InRowOrder(t, SelectLive(t, world, n))
  {
    if n > 0 {
      var rest := SelectLive(t, world, n - 1);
      SelectLiveOrdered(t, world, n - 1);
      assert n - 1 !in rest;
      InsertRowOrdered(t, rest, n - 1);
    }
  }

  /** Inserting after everything that is not younger keeps equal times in arrival order. */
  function InsertByTime(t: Table, s: seq<nat>, i: nat): (out: seq<nat>)
    requires Ids(t, s) && i < |t|
    ensures Ids(t, out) && forall j: nat :: j in out <==> j in s || j == i
  {
    if s == [] then [i]
    else
      var n := |s| - 1;
      assert s == s[..n] + [s[n]];
      if t[s[n]].createdAt <= t[i].createdAt then s + [i] else InsertByTime(t, s[..n], i) + [s[n]]
  }

  function SortByTime(t: Table, s: seq<nat>): (out: seq<nat>)
    requires Ids(t, s)
    ensures Ids(t, out) && forall j: nat :: j in out <==> j in s
  {
    if s == [] then []
    else
      var n := |s| - 1;
      assert s == s[..n] + [s[n]];
      InsertByTime(t, SortByTime(t, s[..n]), s[n])
  }

  lemma {:induction false} InsertByTimeOrdered(t: Table, s: seq<nat>, i: nat)
    requires InListOrder(t, s) && i < |t| && forall k :: 0 <= k < |s| ==> RowBefore(t, s[k], i)
    ensures InListOrder(t, InsertByTime(t, s, i))
  {
    if s != [] {
      var n := |s| - 1;
      if t[s[n]].createdAt <= t[i].createdAt {
        forall k | 0 <= k < |s| ensures ListedBefore(t, s[k], i) {
          assert k < n ==> ListedBefore(t, s[k], s[n]);
        }
      } else {
        InsertByTimeOrdered(t, s[..n], i);
        var inner := InsertByTime(t, s[..n], i);
        forall k | 0 <= k < |inner| ensures ListedBefore(t, inner[k], s[n]) {
          assert inner[k] in inner;
        }
      }
    }
  }

  /** A stable sort by time of rows in reading order lists them in order. */
  lemma {:induction false} SortByTimeOrdered(t: Table, s: seq<nat>)
    requires InRowOrder(t, s)
    ensures InListOrder(t, SortByTime(t, s))
  {
    if s != [] {
      var n := |s| - 1;
      SortByTimeOrdered(t, s[..n]);
      var sorted := SortByTime(t, s[..n]);
      forall k | 0 <= k < |sorted| ensures RowBefore(t, sorted[k], s[n]) {
        assert sorted[k] in sorted;
      }
      InsertByTimeOrdered(t, sorted, s[n]);
    }
  }

  // ----- One group -----

  /** The live members of one group, newest first. */
  ghost predicate GroupList(t: Table, key: Key, l: seq<nat>) {
    InRowOrder(t, l) && forall i: nat :: i in l <==> i < |t| && Live(t[i]) && KeyOf(t[i]) == key
  }

  function Elements(s: seq<nat>): set<nat> { set i | i in s }

  lemma {:induction false} ElementCount(t: Table, l: seq<nat>)
    requires InRowOrder(t, l)
    ensures |Elements(l)| == |l|
  {
    if l != [] {
      var n := |l| - 1;
      ElementCount(t, l[..n]);
      forall k | 0 <= k < n ensures l[k] != l[n] {
        assert RowBefore(t, l[k], l[n]);
      }
      assert l == l[..n] + [l[n]];
      assert Elements(l) == Elements(l[..n]) + {l[n]};
    }
  }

  lemma LaterRowsFollow(t: Table, l: seq<nat>, k: nat)
    requires InRowOrder(t, l) && k < |l|
    ensures forall m :: k <= m < |l| ==> !RowBefore(t, l[m], l[k])
  {}

  /** What is newer than the k-th of a group is what stands before it. */
  lemma NewerIsBefore(t: Table, key: Key, l: seq<nat>, k: nat)
    requires GroupList(t, key, l) && k < |l|
    ensures NewerLive(t, l[k]) == Elements(l[..k]) && |NewerLive(t, l[k])| == k
  {
    assert l[k] in l;
    forall j: nat ensures j in NewerLive(t, l[k]) <==> j in l[..k] {
      if j in l[..k] {
        var m :| 0 <= m < k && l[m] == j;
        assert j in l && RowBefore(t, l[m], l[k]);
      }
      if j in NewerLive(t, l[k]) {
        assert j in l && RowBefore(t, j, l[k]);
        var m :| 0 <= m < |l| && l[m] == j;
        LaterRowsFollow(t, l, k);
        assert l[..k][m] == j;
      }
    }
    ElementCount(t, l[..k]);
  }

  predicate HasSound(t: Table, l: seq<nat>)
    requires Ids(t, l)
  {
    exists j :: 0 <= j < |l| && !t[l[j]].suspect
  }

  /** Whether the k-th of a group is a candidate, read off the list. */
  lemma CandidateByPosition(t: Table, p: Policy, key: Key, l: seq<nat>, k: nat)
    requires GroupList(t, key, l) && k < |l| && InScope(t[l[k]], p)
    ensures Candidate(t, p, l[k]) <==>
              t[l[k]].createdAt < p.cutoff && !t[l[k]].suspect && k >= p.keep && HasSound(t, l[..k])
  {
    NewerIsBefore(t, key, l, k);
    assert l[k] in l;
    if HasSound(t, l[..k]) {
      var j :| 0 <= j < k && !t[l[j]].suspect;
      assert l[..k][j] in Elements(l[..k]);
    }
    if j :| j in NewerLive(t, l[k]) && !t[j].suspect {
      var m :| 0 <= m < k && l[..k][m] == j;
    }
  }

  /** The members of a list that are candidates, in its order. */
  ghost predicate CandidatesOf(t: Table, p: Policy, l: seq<nat>, out: seq<nat>) {
    InRowOrder(t, out) && forall i: nat :: i in out <==> i in l && Candidate(t, p, i)
  }

  ghost predicate NewestSound(t: Table, l: seq<nat>, viable: Option<nat>)
    requires Ids(t, l)
  {
    match viable
    case None => forall j :: 0 <= j < |l| ==> t[l[j]].suspect
    case Some(i) => exists j :: 0 <= j < |l| && l[j] == i && !t[i].suspect && forall m :: 0 <= m < j ==> t[l[m]].suspect
  }

  method FindNewestSound(t: Table, artifacts: seq<nat>) returns (viable: Option<nat>)
    requires Ids(t, artifacts)
    ensures NewestSound(t, artifacts, viable)
  {
    var v := 0;
    while v < |artifacts|
      invariant 0 <= v <= |artifacts|
      invariant forall j :: 0 <= j < v ==> t[artifacts[j]].suspect
    {
      if !t[artifacts[v]].suspect {
        return Some(artifacts[v]);
      }
      v := v + 1;
    }
    return None;
  }

  method GroupCandidates(t: Table, p: Policy, ghost key: Key, artifacts: seq<nat>) returns (out: seq<nat>)
    requires GroupList(t, key, artifacts)
    requires forall k :: 0 <= k < |artifacts| ==> InScope(t[artifacts[k]], p)
    ensures CandidatesOf(t, p, artifacts, out)
  {
    var viable := FindNewestSound(t, artifacts);
    out := [];
    var k := 0;
    while k < |artifacts|
      invariant 0 <= k <= |artifacts|
      invariant CandidatesOf(t, p, artifacts[..k], out)
    {
      var i := artifacts[k];
      CandidateByPosition(t, p, key, artifacts, k);
      FirstSound(t, artifacts, viable, k);
      assert artifacts[..k + 1] == artifacts[..k] + [i];
      var isProtected := k < p.keep || viable == Some(i);
      if !(t[i].createdAt >= p.cutoff || isProtected || t[i].suspect) {
        RowsBefore(t, artifacts, k, out);
        AppendRow(t, out, i);
        out := out + [i];
      }
      k := k + 1;
    }
    assert artifacts[..k] == artifacts;
  }

  lemma FirstSound(t: Table, l: seq<nat>, viable: Option<nat>, k: nat)
    requires InRowOrder(t, l) && k < |l|
    requires NewestSound(t, l, viable)
    ensures !t[l[k]].suspect ==> (viable == Some(l[k]) <==> !HasSound(t, l[..k]))
  {}

  lemma RowsBefore(t: Table, l: seq<nat>, k: nat, out: seq<nat>)
    requires InRowOrder(t, l) && k < |l| && Ids(t, out) && forall i: nat :: i in out ==> i in l[..k]
    ensures forall m :: 0 <= m < |out| ==> RowBefore(t, out[m], l[k])
  {
    forall m | 0 <= m < |out| ensures RowBefore(t, out[m], l[k]) {
      assert out[m] in out;
      var j :| 0 <= j < k && l[..k][j] == out[m];
    }
  }

  // ----- Grouping -----

  /** The rows split by key, keys in order of first appearance. */
  ghost predicate Grouped(t: Table, rows: seq<nat>, keys: seq<Key>, grouped: map<Key, seq<nat>>) {
    && (forall j, k :: 0 <= j < k < |keys| ==> KeyBefore(keys[j], keys[k]))
    && (forall key :: key in grouped <==> key in keys)
    && (forall i: nat :: i in rows && i < |t| ==> KeyOf(t[i]) in grouped)
    && (forall key :: key in grouped ==> GroupOf(t, rows, key, grouped[key]))
  }

  ghost predicate GroupOf(t: Table, rows: seq<nat>, key: Key, l: seq<nat>) {
    && l != [] && InRowOrder(t, l)
    && forall i: nat :: i in l <==> i in rows && i < |t| && KeyOf(t[i]) == key
  }

  lemma GroupAppend(t: Table, rows: seq<nat>, i: nat, keys: seq<Key>, grouped: map<Key, seq<nat>>)
    requires InRowOrder(t, rows + [i]) && Grouped(t, rows, keys, grouped) && i < |t| && KeyOf(t[i]) in grouped
    ensures Grouped(t, rows + [i], keys, grouped[KeyOf(t[i]) := grouped[KeyOf(t[i])] + [i]])
  {
    var own := KeyOf(t[i]);
    var grouped' := grouped[own := grouped[own] + [i]];
    assert forall key :: key in grouped' <==> key in grouped;
    forall key | key in grouped' ensures GroupOf(t, rows + [i], key, grouped'[key]) {
      GroupExtended(t, rows, i, key, grouped[key]);
    }
    forall j: nat | j in rows + [i] && j < |t| ensures KeyOf(t[j]) in grouped' {
      assert j in rows || j == i;
    }
  }

  lemma GroupExtended(t: Table, rows: seq<nat>, i: nat, key: Key, l: seq<nat>)
    requires InRowOrder(t, rows + [i]) && i < |t| && GroupOf(t, rows, key, l)
    ensures GroupOf(t, rows + [i], key, if key == KeyOf(t[i]) then l + [i] else l)
  {
    forall k | 0 <= k < |l| ensures RowBefore(t, l[k], i) {
      assert l[k] in l;
      LastRow(t, rows, i, l[k]);
    }
  }

  lemma LastRow(t: Table, rows: seq<nat>, i: nat, j: nat)
    requires InRowOrder(t, rows + [i]) && j in rows
    ensures j < |t| && i < |t| && RowBefore(t, j, i)
  {
    var k :| 0 <= k < |rows| && rows[k] == j;
    assert (rows + [i])[k] == j && (rows + [i])[|rows|] == i;
  }

  lemma GroupNew(t: Table, rows: seq<nat>, i: nat, keys: seq<Key>, grouped: map<Key, seq<nat>>)
    requires InRowOrder(t, rows + [i]) && Grouped(t, rows, keys, grouped) && i < |t| && KeyOf(t[i]) !in grouped
    ensures Grouped(t, rows + [i], keys + [KeyOf(t[i])], grouped[KeyOf(t[i]) := [i]])
  {
    var own := KeyOf(t[i]);
    forall k | 0 <= k < |keys| ensures KeyBefore(keys[k], own) {
      assert keys[k] in keys && keys[k] in grouped;
      var l := grouped[keys[k]];
      assert l[0] in l;
      LastRow(t, rows, i, l[0]);
    }
    var grouped' := grouped[own := [i]];
    forall key | key in grouped' ensures GroupOf(t, rows + [i], key, grouped'[key]) {
      if key != own {
        GroupExtended(t, rows, i, key, grouped[key]);
      }
    }
  }

  method GroupRows(t: Table, rows: seq<nat>) returns (keys: seq<Key>, grouped: map<Key, seq<nat>>)
    requires InRowOrder(t, rows)
    ensures Grouped(t, rows, keys, grouped)
  {
    keys, grouped := [], map[];
    var n := 0;
    while n < |rows|
      invariant 0 <= n <= |rows|
      invariant Grouped(t, rows[..n], keys, grouped)
    {
      var key := KeyOf(t[rows[n]]);
      assert rows[..n + 1] == rows[..n] + [rows[n]];
      if key in grouped {
        GroupAppend(t, rows[..n], rows[n], keys, grouped);
        grouped := grouped[key := grouped[key] + [rows[n]]];
      } else {
        GroupNew(t, rows[..n], rows[n], keys, grouped);
        keys, grouped := keys + [key], grouped[key := [rows[n]]];
      }
      n := n + 1;
    }
    assert rows[..n] == rows;
  }

  // ----- The service -----

  predicate Reached(t: Table, keys: seq<Key>, i: nat) {
    i < |t| && KeyOf(t[i]) in keys
  }

  /** The candidates of the groups visited so far, in reading order. */
  ghost predicate CandidatesSoFar(t: Table, p: Policy, keys: seq<Key>, out: seq<nat>) {
    InRowOrder(t, out) && forall i: nat :: i in out <==> Reached(t, keys, i) && Candidate(t, p, i)
  }

  lemma NextGroup(t: Table, p: Policy, rows: seq<nat>, keys: seq<Key>, grouped: map<Key, seq<nat>>, g: nat,
                  out: seq<nat>, more: seq<nat>)
    requires Selected(t, p.world, rows) && Grouped(t, rows, keys, grouped) && g < |keys|
    requires CandidatesSoFar(t, p, keys[..g], out) && keys[g] in grouped && CandidatesOf(t, p, grouped[keys[g]], more)
    ensures CandidatesSoFar(t, p, keys[..g + 1], out + more)
  {
    var l := grouped[keys[g]];
    assert GroupOf(t, rows, keys[g], l);
    assert keys[..g + 1] == keys[..g] + [keys[g]];
    forall j, k | 0 <= j < |out| && 0 <= k < |more| ensures RowBefore(t, out[j], more[k]) {
      assert out[j] in out && more[k] in more;
      var m :| 0 <= m < g && keys[..g][m] == KeyOf(t[out[j]]);
      assert KeyBefore(keys[m], keys[g]);
    }
    forall i: nat ensures i in more <==> i < |t| && KeyOf(t[i]) == keys[g] && Candidate(t, p, i) {
      assert Candidate(t, p, i) ==> i in rows;
    }
  }

  lemma EveryGroupVisited(t: Table, p: Policy, rows: seq<nat>, keys: seq<Key>, grouped: map<Key, seq<nat>>,
                          out: seq<nat>)
    requires Selected(t, p.world, rows) && Grouped(t, rows, keys, grouped)
    requires CandidatesSoFar(t, p, keys, out)
    ensures Lists(t, p, SortByTime(t, out))
  {
    SortByTimeOrdered(t, out);
    forall i: nat ensures i in out <==> Candidate(t, p, i) {
      assert Candidate(t, p, i) ==> i in rows;
    }
  }

  datatype Preview = Preview(olderThanDays: int, keep: int, scope: string, world: Option<nat>, targets: seq<Target>)

  /** What a preview records of one target; its digest is taken to identify it. */
  datatype Target = Target(id: nat, path: string, world: Option<nat>, category: nat, createdAt: int)

  function TargetsOf(t: Table, ids: seq<nat>): (out: seq<Target>)
    requires Ids(t, ids)
    ensures |out| == |ids|
    ensures forall k :: 0 <= k < |ids| ==>
              var a := t[ids[k]]; out[k] == Target(ids[k], a.path, a.world, a.category, a.createdAt)
  {
    seq(|ids|, k requires 0 <= k < |ids| =>
          var a := t[ids[k]]; Target(ids[k], a.path, a.world, a.category, a.createdAt))
  }

  function IdsOf(targets: seq<Target>): (ids: seq<nat>)
    ensures |ids| == |targets| && forall k :: 0 <= k < |ids| ==> ids[k] == targets[k].id
  {
    seq(|targets|, k requires 0 <= k < |targets| => targets[k].id)
  }

  /** The targets are what the policy finds in this table, in order and with their metadata. */
  ghost predicate Current(t: Table, p: Policy, targets: seq<Target>) {
    Lists(t, p, IdsOf(targets)) && targets == TargetsOf(t, IdsOf(targets))
  }

  lemma CurrentExactly(t: Table, p: Policy, found: seq<nat>, targets: seq<Target>)
    requires Lists(t, p, found)
    ensures Current(t, p, targets) <==> targets == TargetsOf(t, found)
  {
    if Current(t, p, targets) {
      SortedUnique(t, IdsOf(targets), found);
    }
    if targets == TargetsOf(t, found) {
      assert IdsOf(targets) == found;
    }
  }

  lemma OnlyCurrent(t: Table, p: Policy, found: seq<nat>)
    requires Lists(t, p, found)
    ensures forall other :: Current(t, p, other) <==> other == TargetsOf(t, found)
  {
    forall other ensures Current(t, p, other) <==> other == TargetsOf(t, found) {
      CurrentExactly(t, p, found, other);
    }
  }

  function MatchedPreview(previews: map<(Option<nat>, string), Preview>, world: Option<nat>, scope: string,
                          confirmed: Option<Option<Preview>>): Option<Preview>
  {
    if confirmed.Some? then confirmed.value
    else if (world, scope) in previews then Some(previews[(world, scope)])
    else None
  }

  lemma LastRowOnce(t: Table, ids: seq<nat>, k: nat)
    requires InListOrder(t, ids) && k < |ids|
    ensures ids[k] !in ids[..k]
  {}

  class CleanupService {
    var table: Table
    var previews: map<(Option<nat>, string), Preview>

    constructor ()
      ensures table == [] && previews == map[]
    {
      table, previews := [], map[];
    }

    method Select(world: Option<nat>) returns (rows: seq<nat>)
      ensures Selected(table, world, rows)
    {
      SelectLiveOrdered(table, world, |table|);
      rows := SelectLive(table, world, |table|);
    }

    /** The floors are refused; otherwise exactly the candidates, in order. */
    method BackupCandidates(olderThanDays: int, keep: int, world: Option<nat>, now: int)
      returns (r: Result<seq<nat>, RetentionError>)
      ensures r == Err(AgeFloor) <==> olderThanDays < 3
      ensures r == Err(CountFloor) <==> olderThanDays >= 3 && keep < 3
      ensures r.Ok? <==> olderThanDays >= 3 && keep >= 3
      ensures r.Ok? ==> Lists(table, Policy(now - olderThanDays * 86400, keep, world), r.value)
      ensures r.Ok? ==>
                forall i: nat :: i in r.value <==>
                  && i < |table| && table[i].deletedAt.None? && !table[i].suspect
                  && (world.None? || table[i].world == world)
                  && table[i].createdAt < now - olderThanDays * 86400
                  && |NewerLive(table, i)| >= keep && exists j :: j in NewerLive(table, i) && !table[j].suspect
    {
      if olderThanDays < AGE_FLOOR_DAYS {
        return Err(AgeFloor);
      }
      if keep < COUNT_FLOOR {
        return Err(CountFloor);
      }
      var p := Policy(now - olderThanDays * SECONDS_PER_DAY, keep, world);
      var rows := Select(world);
      var keys, grouped := GroupRows(table, rows);
      var candidates := [];
      var g := 0;
      while g < |keys|
        invariant 0 <= g <= |keys|
        invariant CandidatesSoFar(table, p, keys[..g], candidates)
      {
        assert keys[g] in keys && keys[g] in grouped && GroupOf(table, rows, keys[g], grouped[keys[g]]);
        var artifacts := grouped[keys[g]];
        assert forall k :: 0 <= k < |artifacts| ==> artifacts[k] in artifacts;
        WholeGroup(table, p, rows, keys[g], artifacts);
        var more := GroupCandidates(table, p, keys[g], artifacts);
        NextGroup(table, p, rows, keys, grouped, g, candidates, more);
        candidates := candidates + more;
        g := g + 1;
      }
      assert keys[..g] == keys;
      EveryGroupVisited(table, p, rows, keys, grouped, candidates);
      return Ok(SortByTime(table, candidates));
    }

    /** Deletes exactly the given candidates, if they are what the policy finds now. */
    method ExecuteBackupCleanup(candidates: seq<Target>, olderThanDays: int, keep: int, world: Option<nat>,
                                elevated: bool, now: int, deletionTime: int)
      returns (r: Result<nat, RetentionError>)
      modifies this`table
      ensures r.Err? ==> table == old(table)
      ensures r == Err(BlastRadius) <==> |candidates| > 500 && !elevated
      ensures r == Err(AgeFloor) ==> olderThanDays < 3
      ensures r == Err(CountFloor) ==> olderThanDays >= 3 && keep < 3
      ensures r.Ok? <==>
                && olderThanDays >= 3 && keep >= 3 && (elevated || |candidates| <= 500)
                && Current(old(table), Policy(now - olderThanDays * 86400, keep, world), candidates)
      ensures r.Ok? ==>
                && table == Cleaned(old(table), Policy(now - olderThanDays * 86400, keep, world), deletionTime)
                && r.value == |candidates|
      ensures forall i :: 0 <= i < |old(table)| ==>
                |table| == |old(table)|
                && (table[i] != old(table)[i] ==>
                      && old(table)[i].createdAt < now - olderThanDays * 86400
                      && table[i] == old(table)[i].(deletedAt := Some(deletionTime)))
    {
      if |candidates| > BLAST_RADIUS_CAP && !elevated {
        return Err(BlastRadius);
      }
      var found := BackupCandidates(olderThanDays, keep, world, now);
      if found.Err? {
        return Err(found.error);
      }
      var p := Policy(now - olderThanDays * SECONDS_PER_DAY, keep, world);
      CurrentExactly(table, p, found.value, candidates);
      if candidates != TargetsOf(table, found.value) {
        return Err(PreviewRequiredOrStale);
      }
      assert IdsOf(candidates) == found.value;
      assert forall k :: 0 <= k < |found.value| ==> found.value[k] in found.value;
      var deleted := Delete(found.value, deletionTime);
      return Ok(deleted);
    }

    /** Marks each id deleted that is still live. */
    method Delete(ids: seq<nat>, now: int) returns (deleted: nat)
      requires InListOrder(table, ids) && forall k :: 0 <= k < |ids| ==> Live(table[ids[k]])
      modifies this`table
      ensures |table| == |old(table)| && deleted == |ids|
      ensures forall i :: 0 <= i < |table| ==>
                table[i] == if i in ids then old(table)[i].(deletedAt := Some(now)) else old(table)[i]
    {
      deleted := 0;
      var k := 0;
      while k < |ids|
        invariant 0 <= k <= |ids| && deleted == k && |table| == |old(table)|
        invariant forall i :: 0 <= i < |table| ==>
                    table[i] == if i in ids[..k] then old(table)[i].(deletedAt := Some(now)) else old(table)[i]
      {
        assert ids[..k + 1] == ids[..k] + [ids[k]];
        LastRowOnce(old(table), ids, k);
        if Live(table[ids[k]]) {
          table := table[ids[k] := table[ids[k]].(deletedAt := Some(now))];
          deleted := deleted + 1;
        }
        k := k + 1;
      }
      assert ids[..k] == ids;
    }

    /**
      Preview or perform a cleanup.  `confirmed` is the preview stored with the dry-run
      operation the caller names, if it names one; otherwise the last preview of this world
      and scope is used.
     */
    method EvaluateAndExecute(world: Option<nat>, dryRun: bool, olderThanDays: int, keep: int, elevated: bool,
                              scope: string, confirmed: Option<Option<Preview>>,
                              now: int, executionTime: int, deletionTime: int)
      returns (r: Result<seq<Target>, RetentionError>)
      modifies this
      ensures r.Err? || dryRun ==> table == old(table)
      ensures r.Err? || !dryRun ==> previews == old(previews)
      ensures dryRun ==> (r.Ok? <==> olderThanDays >= 3 && keep >= 3)
      ensures r == Err(AgeFloor) <==> olderThanDays < 3
      ensures r == Err(CountFloor) <==> olderThanDays >= 3 && keep < 3
      ensures r.Ok? ==> Current(old(table), Policy(now - olderThanDays * 86400, keep, world), r.value)
      ensures !dryRun ==>
                (r.Ok? <==>
                  && olderThanDays >= 3 && keep >= 3
                  && exists targets ::
                      && MatchedPreview(old(previews), world, scope, confirmed)
                         == Some(Preview(olderThanDays, keep, scope, world, targets))
                      && Current(old(table), Policy(now - olderThanDays * 86400, keep, world), targets)
                      && Current(old(table), Policy(executionTime - olderThanDays * 86400, keep, world), targets)
                      && (elevated || |targets| <= 500))
      ensures r.Ok? && dryRun ==>
                previews == old(previews)[(world, scope) := Preview(olderThanDays, keep, scope, world, r.value)]
      ensures r.Ok? && !dryRun ==>
                && MatchedPreview(old(previews), world, scope, confirmed)
                   == Some(Preview(olderThanDays, keep, scope, world, r.value))
                && table
                   == Cleaned(old(table), Policy(executionTime - olderThanDays * 86400, keep, world), deletionTime)
      ensures r.Ok? && !dryRun ==>
                |table| == |old(table)|
                && forall i :: 0 <= i < |table| ==>
                     && (table[i] != old(table)[i] <==> i in IdsOf(r.value))
                     && (table[i] != old(table)[i] ==>
                           && old(table)[i].createdAt < now - olderThanDays * 86400
                           && old(table)[i].createdAt < executionTime - olderThanDays * 86400
                           && table[i] == old(table)[i].(deletedAt := Some(deletionTime)))
      ensures r.Ok? && !dryRun ==>
                if confirmed.Some? then confirmed.value == Some(Preview(olderThanDays, keep, scope, world, r.value))
                else (world, scope) in old(previews)
                     && old(previews)[(world, scope)] == Preview(olderThanDays, keep, scope, world, r.value)
    {
      var found := BackupCandidates(olderThanDays, keep, world, now);
      if found.Err? {
        return Err(found.error);
      }
      var targets := TargetsOf(table, found.value);
      OnlyCurrent(table, Policy(now - olderThanDays * SECONDS_PER_DAY, keep, world), found.value);
      if !dryRun && |targets| > BLAST_RADIUS_CAP && !elevated {
        return Err(BlastRadius);
      }
      var preview := Preview(olderThanDays, keep, scope, world, targets);
      if !dryRun && MatchedPreview(previews, world, scope, confirmed) != Some(preview) {
        return Err(PreviewRequiredOrStale);
      }
      if dryRun {
        previews := previews[(world, scope) := preview];
        return Ok(targets);
      }
      var executed := ExecuteBackupCleanup(targets, olderThanDays, keep, world, elevated, executionTime, deletionTime);
      if executed.Err? {
        return Err(executed.error);
      }
      return Ok(targets);
    }
  }

  /** A group cut out of the selected rows is the whole live group. */
  lemma WholeGroup(t: Table, p: Policy, rows: seq<nat>, key: Key, l: seq<nat>)
    requires Selected(t, p.world, rows) && GroupOf(t, rows, key, l)
    ensures GroupList(t, key, l)
  {
    assert l[0] in l;
  }
}
