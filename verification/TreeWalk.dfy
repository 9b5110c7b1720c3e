/**
  Two work-list walks over a directory graph that symbolic links may make cyclic: the one
  that archives a world and the one that measures it before archiving.

  A tree maps each real directory to its named entries, every entry carrying the real path
  it resolves to.  There are no I/O errors and no broken links.  Directory listings are
  taken in any order, which covers the sorted order of the archive and the unordered one
  of the size.
 */
module TreeWalk {
  import opened Wrappers

  type Name = string
  type Path = seq<Name>

  datatype Entry = Dir(target: Path) | File(target: Path, size: nat)

  datatype Tree = Tree(root: Path, dirs: map<Path, map<Name, Entry>>) {
    /** Every directory that can be entered can be listed. */
    ghost predicate Valid() {
      && root in dirs
      && (forall d, n :: d in dirs && n in dirs[d] && dirs[d][n].Dir? && root <= dirs[d][n].target
            ==> dirs[d][n].target in dirs)
    }
  }

  predicate EndsWith(s: string, suffix: string) {
    |suffix| <= |s| && s[|s| - |suffix|..] == suffix
  }

  predicate Excluded(n: Name) {
    EndsWith(n, ".part") || n == "mcmanager.lock" || n == "mcmanager.pid"
  }

  // ----- What the walks are for -----

  /** A directory reached by following names from the root, with the real directories passed on the way. */
  datatype Place = Place(dir: Path, passed: set<Path>)

  predicate Enters(t: Tree, at: Place, n: Name) {
    && at.dir in t.dirs && n in t.dirs[at.dir]
    && var e := t.dirs[at.dir][n];
       t.root <= e.target && !Excluded(n) && e.Dir? && e.target !in at.passed
  }

  function Init(p: Path): Path
    requires p != []
  {
    p[..|p| - 1]
  }

  function Last(p: Path): Name
    requires p != []
  {
    p[|p| - 1]
  }

  /** Where a path of names leads when no real directory is entered twice on the way. */
  ghost function Follow(t: Tree, p: Path): Option<Place> {
    if p == [] then Some(Place(t.root, {t.root}))
    else
      var before := Follow(t, Init(p));
      if before.Some? && Enters(t, before.value, Last(p)) then
        var target := t.dirs[before.value.dir][Last(p)].target;
        Some(Place(target, before.value.passed + {target}))
      else None
  }

  ghost predicate Listed(t: Tree, p: Path) {
    && p != [] && Follow(t, Init(p)).Some?
    && Follow(t, Init(p)).value.dir in t.dirs && Last(p) in t.dirs[Follow(t, Init(p)).value.dir]
  }

  ghost function EntryAt(t: Tree, p: Path): Entry
    requires Listed(t, p)
  {
    t.dirs[Follow(t, Init(p)).value.dir][Last(p)]
  }

  /** A file belongs to the archive: it is listed, inside the root, and not one of the excluded names. */
  ghost predicate IsMember(t: Tree, p: Path) {
    Listed(t, p) && t.root <= EntryAt(t, p).target && !Excluded(Last(p)) && EntryAt(t, p).File?
  }

  /** A path is counted as skipped: it leaves the root, or re-enters a directory it came through. */
  ghost predicate IsSkipped(t: Tree, p: Path) {
    Listed(t, p)
    && (!(t.root <= EntryAt(t, p).target)
        || (!Excluded(Last(p)) && EntryAt(t, p).Dir? && EntryAt(t, p).target in Follow(t, Init(p)).value.passed))
  }

  datatype Member = Member(path: Path, file: Entry)

  predicate DistinctPaths(ms: seq<Member>) {
    forall j, k :: 0 <= j < k < |ms| ==> ms[j].path != ms[k].path
  }

  ghost predicate Holds(ms: seq<Member>, p: Path) {
    exists k :: 0 <= k < |ms| && ms[k].path == p
  }

  ghost predicate Genuine(t: Tree, ms: seq<Member>) {
    forall k :: 0 <= k < |ms| ==> IsMember(t, ms[k].path) && ms[k].file == EntryAt(t, ms[k].path)
  }

  /** The members of a tree, each once. */
  ghost predicate Enumerates(t: Tree, ms: seq<Member>) {
    DistinctPaths(ms) && Genuine(t, ms) && forall p :: IsMember(t, p) ==> Holds(ms, p)
  }

  function SizeOf(e: Entry): nat {
    if e.File? then e.size else 0
  }

  function TotalSize(ms: seq<Member>): nat {
    if ms == [] then 0 else TotalSize(ms[..|ms| - 1]) + SizeOf(ms[|ms| - 1].file)
  }

  lemma {:induction false} TotalWithout(ms: seq<Member>, k: nat)
    requires k < |ms|
    ensures TotalSize(ms) == TotalSize(ms[..k] + ms[k + 1..]) + SizeOf(ms[k].file)
  {
    var n := |ms| - 1;
    if k < n {
      TotalWithout(ms[..n], k);
      assert (ms[..k] + ms[k + 1..])[..n - 1] == ms[..n][..k] + ms[..n][k + 1..];
    } else {
      assert ms[..k] + ms[k + 1..] == ms[..n];
    }
  }

  predicate Within(a: seq<Member>, b: seq<Member>) {
    forall k :: 0 <= k < |a| ==> a[k] in b
  }

  lemma WithinWithout(a: seq<Member>, b: seq<Member>, k: nat)
    requires a != [] && DistinctPaths(a) && Within(a, b) && k < |b| && b[k] == a[|a| - 1]
    ensures Within(a[..|a| - 1], b[..k] + b[k + 1..])
  {}

  lemma WithoutWithin(a: seq<Member>, b: seq<Member>, k: nat)
    requires a != [] && DistinctPaths(b) && Within(b, a) && k < |b| && b[k] == a[|a| - 1]
    ensures Within(b[..k] + b[k + 1..], a[..|a| - 1])
  {}

  /** Listing the same members in another order gives the same total. */
  lemma {:induction false} SameTotal(a: seq<Member>, b: seq<Member>)
    requires DistinctPaths(a) && DistinctPaths(b) && Within(a, b) && Within(b, a)
    ensures TotalSize(a) == TotalSize(b)
  {
    if a == [] {
    } else {
      var n := |a| - 1;
      assert a[n] in b;
      var k :| 0 <= k < |b| && b[k] == a[n];
      TotalWithout(b, k);
      WithinWithout(a, b, k);
      WithoutWithin(a, b, k);
      SameTotal(a[..n], b[..k] + b[k + 1..]);
    }
  }

  lemma EnumerationsAgree(t: Tree, a: seq<Member>, b: seq<Member>)
    requires Enumerates(t, a) && Enumerates(t, b)
    ensures TotalSize(a) == TotalSize(b)
  {
    EnumeratedWithin(t, a, b);
    EnumeratedWithin(t, b, a);
    SameTotal(a, b);
  }

  lemma EnumeratedWithin(t: Tree, a: seq<Member>, b: seq<Member>)
    requires Enumerates(t, a) && Enumerates(t, b)
    ensures Within(a, b)
  {}

  // ----- Finitely many places -----

  lemma {:induction false} FollowShape(t: Tree, p: Path)
    requires t.Valid() && Follow(t, p).Some?
    ensures Follow(t, p).value.dir in t.dirs && Follow(t, p).value.passed <= t.dirs.Keys
    ensures |Follow(t, p).value.passed| == |p| + 1 <= |t.dirs|
  {
    if p != [] {
      FollowShape(t, Init(p));
    }
    SubsetSize(Follow(t, p).value.passed, t.dirs.Keys);
    assert |t.dirs.Keys| == |t.dirs|;
  }

  /** The paths of at most `depth` names that lead to a directory. */
  ghost function PathsTo(t: Tree, depth: nat): set<Path> {
    if depth == 0 then {[]}
    else
      var shorter := PathsTo(t, depth - 1);
      shorter + set p, n | p in shorter && Follow(t, p).Some? && Follow(t, p).value.dir in t.dirs
                           && n in t.dirs[Follow(t, p).value.dir] :: p + [n]
  }

  lemma {:induction false} PathsToHolds(t: Tree, p: Path, depth: nat)
    requires Follow(t, p).Some? && |p| <= depth
    ensures p in PathsTo(t, depth)
  {
    if p != [] {
      PathsToHolds(t, Init(p), depth - 1);
      assert p == Init(p) + [Last(p)];
    } else if depth > 0 {
      PathsToHolds(t, p, depth - 1);
    }
  }

  /** Every path that leads to a directory, a finite set however the links loop. */
  ghost function AllPaths(t: Tree): set<Path> {
    PathsTo(t, |t.dirs|)
  }

  /** Every path that can be entered is in one finite set. */
  lemma EnterablePathsAreFinite(t: Tree, p: Path)
    requires t.Valid() && Follow(t, p).Some?
    ensures |p| < |t.dirs| && p in AllPaths(t)
  {
    FollowShape(t, p);
    PathsToHolds(t, p, |t.dirs|);
  }

  // ----- The state of a walk -----

  /** A directory still to be listed; only the archive needs its path from the root, the measure carries it along. */
  datatype Item = Item(dir: Path, rel: Path, passed: set<Path>)

  ghost predicate Waiting(items: seq<Item>, p: Path) {
    exists k :: 0 <= k < |items| && items[k].rel == p
  }

  /** Pending items are genuine places, once each, not yet listed, below listed directories. */
  ghost predicate Pending(t: Tree, items: seq<Item>, done: set<Path>) {
    && (forall k :: 0 <= k < |items| ==>
          && Follow(t, items[k].rel) == Some(Place(items[k].dir, items[k].passed))
          && items[k].rel !in done
          && (items[k].rel != [] ==> Init(items[k].rel) in done))
    && (forall j, k :: 0 <= j < k < |items| ==> items[j].rel != items[k].rel)
  }

  /** Whether the entry a path names has been looked at: `left` are the names of `current` still to come. */
  predicate Seen(p: Path, done: set<Path>, current: Path, left: set<Name>) {
    p != [] && Init(p) in done && !(Init(p) == current && Last(p) in left)
  }

  /** Directories already listed are genuine, and what lies directly below them is listed or pending. */
  ghost predicate Listing(t: Tree, items: seq<Item>, done: set<Path>, current: Path, left: set<Name>) {
    && (forall p :: p in done ==> Follow(t, p).Some? && (p != [] ==> Init(p) in done))
    && (forall p :: Seen(p, done, current, left) && Follow(t, p).Some? ==> p in done || Waiting(items, p))
    && ([] in done || Waiting(items, []))
  }

  /** The members found so far are those among the entries looked at. */
  ghost predicate Found(t: Tree, ms: seq<Member>, done: set<Path>, current: Path, left: set<Name>) {
    && DistinctPaths(ms) && Genuine(t, ms)
    && (forall k :: 0 <= k < |ms| ==> Seen(ms[k].path, done, current, left))
    && (forall p :: IsMember(t, p) && Seen(p, done, current, left) ==> Holds(ms, p))
  }

  ghost predicate Skips(t: Tree, skips: set<Path>, done: set<Path>, current: Path, left: set<Name>) {
    forall p :: p in skips <==> IsSkipped(t, p) && Seen(p, done, current, left)
  }

  /** With nothing pending, every directory has been listed. */
  lemma {:induction false} AllListed(t: Tree, done: set<Path>, current: Path, p: Path)
    requires Listing(t, [], done, current, {}) && Follow(t, p).Some?
    ensures p in done
  {
    assert forall q :: !Waiting([], q);
    if p != [] {
      AllListed(t, done, current, Init(p));
      assert Seen(p, done, current, {});
    }
  }

  lemma Finished(t: Tree, done: set<Path>, current: Path)
    requires Listing(t, [], done, current, {})
    ensures forall p :: Listed(t, p) ==> Seen(p, done, current, {})
  {
    forall p | Listed(t, p) ensures Seen(p, done, current, {}) {
      AllListed(t, done, current, Init(p));
    }
  }

  /** Starting on a directory changes nothing about which entries have been looked at. */
  lemma StartSeen(t: Tree, item: Item, done: set<Path>, current: Path, p: Path)
    requires Follow(t, item.rel) == Some(Place(item.dir, item.passed)) && item.dir in t.dirs && item.rel !in done
    requires Listed(t, p) || Follow(t, p).Some?
    ensures Seen(p, done + {item.rel}, item.rel, t.dirs[item.dir].Keys) <==> Seen(p, done, current, {})
  {}

  lemma PopPending(t: Tree, items: seq<Item>, done: set<Path>)
    requires items != [] && Pending(t, items, done)
    ensures Pending(t, items[..|items| - 1], done + {items[|items| - 1].rel})
  {}

  lemma PopWaiting(items: seq<Item>, p: Path)
    requires items != [] && Waiting(items, p)
    ensures p == items[|items| - 1].rel || Waiting(items[..|items| - 1], p)
  {}

  lemma PopListing(t: Tree, items: seq<Item>, done: set<Path>, current: Path, item: Item)
    requires items != [] && item == items[|items| - 1] && Listing(t, items, done, current, {})
    requires Follow(t, item.rel) == Some(Place(item.dir, item.passed)) && item.dir in t.dirs
    requires item.rel !in done && (item.rel != [] ==> Init(item.rel) in done)
    ensures Listing(t, items[..|items| - 1], done + {item.rel}, item.rel, t.dirs[item.dir].Keys)
  {
    var rest := items[..|items| - 1];
    var done' := done + {item.rel};
    forall p | Seen(p, done', item.rel, t.dirs[item.dir].Keys) && Follow(t, p).Some?
      ensures p in done' || Waiting(rest, p)
    {
      StartSeen(t, item, done, current, p);
      if p !in done {
        PopWaiting(items, p);
      }
    }
    if [] !in done {
      PopWaiting(items, []);
    }
  }

  lemma PopFound(t: Tree, item: Item, done: set<Path>, current: Path, ms: seq<Member>)
    requires Follow(t, item.rel) == Some(Place(item.dir, item.passed)) && item.dir in t.dirs && item.rel !in done
    requires Found(t, ms, done, current, {})
    ensures Found(t, ms, done + {item.rel}, item.rel, t.dirs[item.dir].Keys)
  {}

  /** What one listed entry is, in the terms of the three outcomes. */
  lemma Look(t: Tree, dir: Path, rel: Path, passed: set<Path>, n: Name)
    requires Follow(t, rel) == Some(Place(dir, passed)) && dir in t.dirs && n in t.dirs[dir]
    ensures var p, e := rel + [n], t.dirs[dir][n];
            var inside, kept := t.root <= e.target, !Excluded(n);
            && Listed(t, p) && EntryAt(t, p) == e && Init(p) == rel && Last(p) == n
            && (IsMember(t, p) <==> inside && kept && e.File?)
            && (IsSkipped(t, p) <==> !inside || (kept && e.Dir? && e.target in passed))
            && Follow(t, p) == (if inside && kept && e.Dir? && e.target !in passed
                                then Some(Place(e.target, passed + {e.target})) else None)
  {}

  /** Striking a name off leaves exactly its path newly seen. */
  lemma SeenNext(done: set<Path>, rel: Path, left: set<Name>, n: Name, p: Path)
    requires n in left && rel in done
    ensures Seen(p, done, rel, left - {n}) <==> p == rel + [n] || Seen(p, done, rel, left)
    ensures !Seen(rel + [n], done, rel, left)
  {}

  lemma FoundOneMore(t: Tree, ms: seq<Member>, done: set<Path>, rel: Path, left: set<Name>, n: Name)
    requires n in left && rel in done && Found(t, ms, done, rel, left) && IsMember(t, rel + [n])
    ensures DistinctPaths(ms + [Member(rel + [n], EntryAt(t, rel + [n]))])
  {
    SeenNext(done, rel, left, n, rel + [n]);
    assert forall k :: 0 <= k < |ms| ==> ms[k].path != rel + [n];
  }

  lemma HoldsMore(ms: seq<Member>, ms': seq<Member>, p: Path)
    requires ms <= ms' && Holds(ms, p)
    ensures Holds(ms', p)
  {
    var k :| 0 <= k < |ms| && ms[k].path == p;
    assert ms'[k].path == p;
  }

  lemma FoundNext(t: Tree, ms: seq<Member>, done: set<Path>, rel: Path, left: set<Name>, n: Name, ms': seq<Member>)
    requires n in left && rel in done && Found(t, ms, done, rel, left)
    requires ms' == if IsMember(t, rel + [n]) then ms + [Member(rel + [n], EntryAt(t, rel + [n]))] else ms
    ensures Found(t, ms', done, rel, left - {n})
  {
    if IsMember(t, rel + [n]) {
      FoundOneMore(t, ms, done, rel, left, n);
      assert ms'[|ms|].path == rel + [n] && Holds(ms', rel + [n]);
    }
    forall k | 0 <= k < |ms'| ensures Seen(ms'[k].path, done, rel, left - {n}) {
      SeenNext(done, rel, left, n, ms'[k].path);
    }
    forall p | IsMember(t, p) && Seen(p, done, rel, left - {n}) ensures Holds(ms', p) {
      SeenNext(done, rel, left, n, p);
      if p != rel + [n] {
        HoldsMore(ms, ms', p);
      }
    }
  }

  lemma SkipsNext(t: Tree, skips: set<Path>, done: set<Path>, rel: Path, left: set<Name>, n: Name, skips': set<Path>)
    requires n in left && rel in done && Skips(t, skips, done, rel, left)
    requires skips' == if IsSkipped(t, rel + [n]) then skips + {rel + [n]} else skips
    ensures Skips(t, skips', done, rel, left - {n})
    ensures |skips'| == |skips| + if IsSkipped(t, rel + [n]) then 1 else 0
  {
    SeenNext(done, rel, left, n, rel + [n]);
    forall p ensures p in skips' <==> IsSkipped(t, p) && Seen(p, done, rel, left - {n}) {
      SeenNext(done, rel, left, n, p);
    }
  }

  lemma PendingNext(t: Tree, items: seq<Item>, done: set<Path>, rel: Path, n: Name, at: Place)
    requires rel in done && Pending(t, items, done)
    requires Follow(t, rel + [n]) == Some(at) && rel + [n] !in done && !Waiting(items, rel + [n])
    ensures Pending(t, items + [Item(at.dir, rel + [n], at.passed)], done)
  {}

  lemma ListingNext(t: Tree, items: seq<Item>, done: set<Path>, rel: Path, left: set<Name>, n: Name, items': seq<Item>)
    requires n in left && rel in done && Listing(t, items, done, rel, left)
    requires items <= items' && (Follow(t, rel + [n]).Some? ==> Waiting(items', rel + [n]))
    ensures Listing(t, items', done, rel, left - {n})
  {
    forall p | Waiting(items, p) ensures Waiting(items', p) {
      var k :| 0 <= k < |items| && items[k].rel == p;
      assert items'[k].rel == p;
    }
    forall p | Seen(p, done, rel, left - {n}) && Follow(t, p).Some? ensures p in done || Waiting(items', p) {
      SeenNext(done, rel, left, n, p);
    }
  }

  /** A name still to come has not been listed or queued under another guise. */
  ghost predicate Untouched(items: seq<Item>, done: set<Path>, rel: Path, left: set<Name>) {
    forall n :: n in left ==> rel + [n] !in done && !Waiting(items, rel + [n])
  }

  lemma StartsUntouched(t: Tree, items: seq<Item>, done: set<Path>, rel: Path, left: set<Name>)
    requires rel !in done && Pending(t, items, done) && Listing(t, items, done + {rel}, rel, left)
    requires forall p :: p in done && p != [] ==> Init(p) in done
    ensures Untouched(items, done + {rel}, rel, left)
  {}

  lemma StaysUntouched(items: seq<Item>, done: set<Path>, rel: Path, left: set<Name>, n: Name, item: Item)
    requires n in left && Untouched(items, done, rel, left) && item.rel == rel + [n]
    ensures Untouched(items + [item], done, rel, left - {n})
  {
    forall m | m in left - {n} ensures !Waiting(items + [item], rel + [m]) {
      assert (rel + [m])[|rel|] == m && (rel + [n])[|rel|] == n;
    }
  }

  /** Everything the walk knows while it is looking at the entries of one directory. */
  ghost predicate Midway(t: Tree, items: seq<Item>, done: set<Path>, rel: Path, left: set<Name>, ms: seq<Member>) {
    && rel in done && done <= AllPaths(t)
    && Pending(t, items, done) && Listing(t, items, done, rel, left)
    && Found(t, ms, done, rel, left) && Untouched(items, done, rel, left)
  }

  function ItemsAfter(t: Tree, items: seq<Item>, at: Place, rel: Path, n: Name): seq<Item> {
    if Enters(t, at, n) then
      var target := t.dirs[at.dir][n].target;
      items + [Item(target, rel + [n], at.passed + {target})]
    else items
  }

  function MembersAfter(t: Tree, ms: seq<Member>, e: Entry, rel: Path, n: Name): seq<Member> {
    if t.root <= e.target && !Excluded(n) && e.File? then ms + [Member(rel + [n], e)] else ms
  }

  lemma Next(t: Tree, items: seq<Item>, done: set<Path>, rel: Path, left: set<Name>, ms: seq<Member>,
             at: Place, n: Name)
    requires Midway(t, items, done, rel, left, ms) && n in left
    requires Follow(t, rel) == Some(at) && at.dir in t.dirs && n in t.dirs[at.dir]
    ensures Midway(t, ItemsAfter(t, items, at, rel, n), done, rel, left - {n},
                   MembersAfter(t, ms, t.dirs[at.dir][n], rel, n))
  {
    var items', ms' := ItemsAfter(t, items, at, rel, n), MembersAfter(t, ms, t.dirs[at.dir][n], rel, n);
    Look(t, at.dir, rel, at.passed, n);
    FoundNext(t, ms, done, rel, left, n, ms');
    if Enters(t, at, n) {
      PendingNext(t, items, done, rel, n, Follow(t, rel + [n]).value);
      assert items'[|items|].rel == rel + [n];
      StaysUntouched(items, done, rel, left, n, items'[|items|]);
    }
    ListingNext(t, items, done, rel, left, n, items');
  }

  lemma Start(t: Tree, items: seq<Item>, done: set<Path>, current: Path, ms: seq<Member>)
    requires t.Valid() && items != [] && done <= AllPaths(t)
    requires Pending(t, items, done) && Listing(t, items, done, current, {}) && Found(t, ms, done, current, {})
    ensures var n := |items| - 1;
            && items[n].dir in t.dirs && items[n].rel !in done
            && Midway(t, items[..n], done + {items[n].rel}, items[n].rel, t.dirs[items[n].dir].Keys, ms)
  {
    var n := |items| - 1;
    FollowShape(t, items[n].rel);
    PathsToHolds(t, items[n].rel, |t.dirs|);
    PopPending(t, items, done);
    PopListing(t, items, done, current, items[n]);
    PopFound(t, items[n], done, current, ms);
    StartsUntouched(t, items[..n], done, items[n].rel, t.dirs[items[n].dir].Keys);
  }

  lemma StartSkips(t: Tree, item: Item, done: set<Path>, current: Path, skips: set<Path>)
    requires Follow(t, item.rel) == Some(Place(item.dir, item.passed)) && item.dir in t.dirs && item.rel !in done
    requires Skips(t, skips, done, current, {})
    ensures Skips(t, skips, done + {item.rel}, item.rel, t.dirs[item.dir].Keys)
  {}

  // ----- The two walks -----

  /** The archive's pass over one directory. */
  method ArchiveDirectory(t: Tree, item: Item, pending: seq<Item>, written: seq<Member>, skipped: nat,
                          ghost done: set<Path>, ghost skips: set<Path>)
    returns (pending': seq<Item>, written': seq<Member>, skipped': nat, ghost skips': set<Path>)
    requires Follow(t, item.rel) == Some(Place(item.dir, item.passed)) && item.dir in t.dirs
    requires Midway(t, pending, done, item.rel, t.dirs[item.dir].Keys, written)
    requires Skips(t, skips, done, item.rel, t.dirs[item.dir].Keys) && skipped == |skips|
    ensures Midway(t, pending', done, item.rel, {}, written')
    ensures Skips(t, skips', done, item.rel, {}) && skipped' == |skips'|
  {
    pending', written', skipped', skips' := pending, written, skipped, skips;
    var Item(directory, relative, ancestors) := item;
    var names := t.dirs[directory].Keys;
    while names != {}
      invariant names <= t.dirs[directory].Keys
      invariant Midway(t, pending', done, relative, names, written')
      invariant Skips(t, skips', done, relative, names) && skipped' == |skips'|
      decreases names
    {
      var n :| n in names;
      var entry := t.dirs[directory][n];
      Next(t, pending', done, relative, names, written', Place(directory, ancestors), n);
      Look(t, directory, relative, ancestors, n);
      ghost var before := skips';
      skips' := if IsSkipped(t, relative + [n]) then skips' + {relative + [n]} else skips';
      SkipsNext(t, before, done, relative, names, n, skips');
      names := names - {n};
      if !(t.root <= entry.target) {
        skipped' := skipped' + 1;
        continue;
      }
      if Excluded(n) {
        continue;
      }
      if entry.Dir? {
        if entry.target in ancestors {
          skipped' := skipped' + 1;
          continue;
        }
        pending' := pending' + [Item(entry.target, relative + [n], ancestors + {entry.target})];
        continue;
      }
      written' := written' + [Member(relative + [n], entry)];
    }
  }

  /**
    Writes every member of the tree exactly once, under its path from the root, and counts
    what it leaves out because it escapes the root or loops back.
   */
  method CreateArchive(t: Tree) returns (written: seq<Member>, skipped: nat)
    requires t.Valid()
    ensures Enumerates(t, written)
    ensures exists skips: set<Path> :: |skips| == skipped && forall p :: p in skips <==> IsSkipped(t, p)
  {
    written, skipped := [], 0;
    var pending := [Item(t.root, [], {t.root})];
    ghost var done: set<Path>, current: Path, skips: set<Path> := {}, [], {};
    assert Waiting(pending, []) by { assert pending[0].rel == []; }
    while pending != []
      invariant Pending(t, pending, done) && Listing(t, pending, done, current, {})
      invariant Found(t, written, done, current, {}) && done <= AllPaths(t)
      invariant Skips(t, skips, done, current, {}) && skipped == |skips|
      decreases AllPaths(t) - done
    {
      var top := |pending| - 1;
      var item := pending[top];
      Start(t, pending, done, current, written);
      StartSkips(t, item, done, current, skips);
      pending, done, current := pending[..top], done + {item.rel}, item.rel;
      pending, written, skipped, skips := ArchiveDirectory(t, item, pending, written, skipped, done, skips);
    }
    Finished(t, done, current);
  }

  /** The measure's pass over one directory. */
  method MeasureDirectory(t: Tree, item: Item, pending: seq<Item>, total: nat,
                          ghost done: set<Path>, ghost counted: seq<Member>)
    returns (pending': seq<Item>, total': nat, ghost counted': seq<Member>)
    requires Follow(t, item.rel) == Some(Place(item.dir, item.passed)) && item.dir in t.dirs
    requires Midway(t, pending, done, item.rel, t.dirs[item.dir].Keys, counted) && total == TotalSize(counted)
    ensures Midway(t, pending', done, item.rel, {}, counted') && total' == TotalSize(counted')
  {
    pending', total', counted' := pending, total, counted;
    var Item(directory, relative, ancestors) := item;
    var names := t.dirs[directory].Keys;
    while names != {}
      invariant names <= t.dirs[directory].Keys
      invariant Midway(t, pending', done, relative, names, counted')
      invariant total' == TotalSize(counted')
      decreases names
    {
      var n :| n in names;
      var entry := t.dirs[directory][n];
      Next(t, pending', done, relative, names, counted', Place(directory, ancestors), n);
      TotalAfter(t, counted', entry, relative, n);
      counted' := MembersAfter(t, counted', entry, relative, n);
      names := names - {n};
      if t.root <= entry.target && !Excluded(n) {
        if entry.Dir? {
          if entry.target !in ancestors {
            pending' := pending' + [Item(entry.target, relative + [n], ancestors + {entry.target})];
          }
        } else {
          total' := total' + entry.size;
        }
      }
    }
  }

  /** Adds up the same members, whatever order the directories are listed in. */
  method TreeSize(t: Tree) returns (total: nat)
    requires t.Valid()
    ensures forall ms :: Enumerates(t, ms) ==> total == TotalSize(ms)
  {
    total := 0;
    var pending := [Item(t.root, [], {t.root})];
    ghost var done: set<Path>, current: Path, counted: seq<Member> := {}, [], [];
    assert Waiting(pending, []) by { assert pending[0].rel == []; }
    while pending != []
      invariant Pending(t, pending, done) && Listing(t, pending, done, current, {})
      invariant Found(t, counted, done, current, {}) && done <= AllPaths(t)
      invariant total == TotalSize(counted)
      decreases AllPaths(t) - done
    {
      var top := |pending| - 1;
      var item := pending[top];
      Start(t, pending, done, current, counted);
      pending, done, current := pending[..top], done + {item.rel}, item.rel;
      pending, total, counted := MeasureDirectory(t, item, pending, total, done, counted);
    }
    AllCounted(t, done, current, counted);
  }

  lemma AllCounted(t: Tree, done: set<Path>, current: Path, counted: seq<Member>)
    requires Listing(t, [], done, current, {}) && Found(t, counted, done, current, {})
    ensures forall ms :: Enumerates(t, ms) ==> TotalSize(counted) == TotalSize(ms)
  {
    Finished(t, done, current);
    assert Enumerates(t, counted);
    forall ms | Enumerates(t, ms) ensures TotalSize(counted) == TotalSize(ms) {
      EnumerationsAgree(t, counted, ms);
    }
  }

  lemma TotalAfter(t: Tree, ms: seq<Member>, e: Entry, rel: Path, n: Name)
    ensures TotalSize(MembersAfter(t, ms, e, rel, n))
            == TotalSize(ms) + if t.root <= e.target && !Excluded(n) && e.File? then e.size else 0
  {}

  // ----- Membership in words -----

  predicate Kept(n: Name) {
    !(|n| >= 5 && n[|n| - 5..] == ".part") && n != "mcmanager.lock" && n != "mcmanager.pid"
  }

  /** Following these names from the root leads through these different directories, all inside the root. */
  predicate Trail(t: Tree, p: Path, dirs: seq<Path>) {
    && |dirs| == |p| + 1 && dirs[0] == t.root
    && (forall i, j :: 0 <= i < j < |dirs| ==> dirs[i] != dirs[j])
    && (forall i :: 0 <= i < |p| ==> Leads(t, dirs[i], p[i], dirs[i + 1]))
  }

  predicate Leads(t: Tree, d: Path, n: Name, d': Path) {
    d in t.dirs && n in t.dirs[d] && t.dirs[d][n] == Dir(d') && t.root <= d'
  }

  /** Following these names leads to this entry, listed in the last of these directories. */
  predicate TrailTo(t: Tree, p: Path, dirs: seq<Path>, e: Entry) {
    && p != [] && Trail(t, p[..|p| - 1], dirs)
    && dirs[|p| - 1] in t.dirs && p[|p| - 1] in t.dirs[dirs[|p| - 1]] && t.dirs[dirs[|p| - 1]][p[|p| - 1]] == e
  }

  predicate AllKept(p: Path) {
    forall i :: 0 <= i < |p| ==> Kept(p[i])
  }

  lemma KeptInWords(n: Name)
    ensures Kept(n) <==> !Excluded(n)
  {}

  function Places(dirs: seq<Path>): set<Path> { set d | d in dirs }

  lemma PlacesThen(dirs: seq<Path>, d: Path)
    ensures Places(dirs + [d]) == Places(dirs) + {d}
  {}

  lemma PlacesOfOne(d: Path)
    ensures Places([d]) == {d}
  {}

  lemma FollowThen(t: Tree, p: Path, n: Name, dirs: seq<Path>, d: Path)
    requires Trail(t, p, dirs) && Follow(t, p) == Some(Place(dirs[|p|], Places(dirs)))
    requires Leads(t, dirs[|p|], n, d) && d !in dirs && Kept(n)
    ensures Follow(t, p + [n]) == Some(Place(d, Places(dirs + [d])))
  {
    KeptInWords(n);
    PlacesThen(dirs, d);
    assert Init(p + [n]) == p && Last(p + [n]) == n;
  }

  lemma {:induction false} TrailFollowed(t: Tree, p: Path, dirs: seq<Path>)
    requires Trail(t, p, dirs) && AllKept(p)
    ensures Follow(t, p) == Some(Place(dirs[|p|], Places(dirs)))
  {
    if p != [] {
      var n := |p| - 1;
      var front, d := dirs[..n + 1], dirs[n + 1];
      assert Trail(t, p[..n], front);
      TrailFollowed(t, p[..n], front);
      assert dirs == front + [d] && p == p[..n] + [p[n]];
      assert Leads(t, dirs[n], p[n], dirs[n + 1]);
      FollowThen(t, p[..n], p[n], front, d);
    } else {
      assert dirs == [t.root];
      PlacesOfOne(t.root);
    }
  }

  lemma TrailThen(t: Tree, p: Path, n: Name, dirs: seq<Path>, d: Path)
    requires Trail(t, p, dirs) && Leads(t, dirs[|p|], n, d) && d !in dirs
    ensures Trail(t, p + [n], dirs + [d])
  {
    var longer, q := dirs + [d], p + [n];
    forall i | 0 <= i < |q| ensures Leads(t, longer[i], q[i], longer[i + 1]) {
      assert i < |p| ==> Leads(t, dirs[i], p[i], dirs[i + 1]);
    }
  }

  lemma {:induction false} FollowedTrail(t: Tree, p: Path) returns (dirs: seq<Path>)
    requires Follow(t, p).Some?
    ensures Trail(t, p, dirs) && AllKept(p) && Follow(t, p) == Some(Place(dirs[|p|], Places(dirs)))
  {
    if p == [] {
      dirs := [t.root];
      PlacesOfOne(t.root);
    } else {
      var q, n := Init(p), Last(p);
      var before := FollowedTrail(t, q);
      var d := Follow(t, p).value.dir;
      KeptInWords(n);
      assert p == q + [n] && Leads(t, before[|q|], n, d) && d !in before;
      TrailThen(t, q, n, before, d);
      FollowThen(t, q, n, before, d);
      dirs := before + [d];
    }
  }

  /** A listed path, in words: where it leads and what is there. */
  lemma ListedInWords(t: Tree, p: Path, dirs: seq<Path>, e: Entry)
    requires p != [] && AllKept(p[..|p| - 1]) && TrailTo(t, p, dirs, e)
    ensures Listed(t, p) && EntryAt(t, p) == e && Follow(t, Init(p)).value.passed == Places(dirs)
  {
    TrailFollowed(t, p[..|p| - 1], dirs);
    assert Init(p) == p[..|p| - 1];
  }

  lemma ListedTrail(t: Tree, p: Path) returns (dirs: seq<Path>)
    requires Listed(t, p)
    ensures TrailTo(t, p, dirs, EntryAt(t, p)) && AllKept(p[..|p| - 1])
    ensures Follow(t, Init(p)).value.passed == Places(dirs)
  {
    dirs := FollowedTrail(t, Init(p));
    assert Init(p) == p[..|p| - 1];
  }

  /**
    What is written and measured: exactly the files reached from the root without entering a
    directory twice, every step inside the root, no name on the way a lock, a pid file or ending in ".part".
   */
  lemma MembersInWords(t: Tree, p: Path, e: Entry)
    ensures IsMember(t, p) && EntryAt(t, p) == e
            <==> e.File? && t.root <= e.target && AllKept(p) && exists dirs :: TrailTo(t, p, dirs, e)
  {
    if IsMember(t, p) && EntryAt(t, p) == e {
      var dirs := ListedTrail(t, p);
      KeptInWords(Last(p));
      assert p == p[..|p| - 1] + [Last(p)];
    }
    if e.File? && t.root <= e.target && AllKept(p) && exists dirs :: TrailTo(t, p, dirs, e) {
      var dirs :| TrailTo(t, p, dirs, e);
      KeptInWords(Last(p));
      ListedInWords(t, p, dirs, e);
    }
  }

  /** What is counted as skipped: entries outside the root, and kept directories already entered on the way. */
  lemma SkipsInWords(t: Tree, p: Path)
    ensures IsSkipped(t, p) <==>
              exists dirs, e ::
                && TrailTo(t, p, dirs, e) && AllKept(p[..|p| - 1])
                && (!(t.root <= e.target) || (e.Dir? && Kept(p[|p| - 1]) && e.target in dirs))
  {
    if IsSkipped(t, p) {
      var dirs := ListedTrail(t, p);
      KeptInWords(Last(p));
      assert TrailTo(t, p, dirs, EntryAt(t, p));
    }
    if dirs, e :| TrailTo(t, p, dirs, e) && AllKept(p[..|p| - 1])
                  && (!(t.root <= e.target) || (e.Dir? && Kept(p[|p| - 1]) && e.target in dirs)) {
      KeptInWords(Last(p));
      ListedInWords(t, p, dirs, e);
    }
  }

  /** An enumeration, in words: each such file once, with its entry. */
  lemma EnumerationsInWords(t: Tree, ms: seq<Member>)
    ensures Enumerates(t, ms) <==>
              && (forall j, k :: 0 <= j < k < |ms| ==> ms[j].path != ms[k].path)
              && (forall k :: 0 <= k < |ms| ==>
                    var e := ms[k].file;
                    && e.File? && t.root <= e.target && AllKept(ms[k].path)
                    && exists dirs :: TrailTo(t, ms[k].path, dirs, e))
              && (forall p, dirs, e ::
                    TrailTo(t, p, dirs, e) && e.File? && t.root <= e.target && AllKept(p) ==> Holds(ms, p))
  {
    forall k | 0 <= k < |ms|
      ensures IsMember(t, ms[k].path) && EntryAt(t, ms[k].path) == ms[k].file <==>
                ms[k].file.File? && t.root <= ms[k].file.target && AllKept(ms[k].path)
                && exists dirs :: TrailTo(t, ms[k].path, dirs, ms[k].file)
    {
      MembersInWords(t, ms[k].path, ms[k].file);
    }
    forall p, dirs, e | TrailTo(t, p, dirs, e) && e.File? && t.root <= e.target && AllKept(p) ensures IsMember(t, p) {
      MembersInWords(t, p, e);
    }
    forall p | IsMember(t, p)
      ensures exists dirs, e :: TrailTo(t, p, dirs, e) && e.File? && t.root <= e.target && AllKept(p)
    {
      MembersInWords(t, p, EntryAt(t, p));
    }
  }

  /** The total adds up file sizes. */
  lemma TotalInWords(ms: seq<Member>, p: Path, target: Path, size: nat)
    ensures TotalSize([]) == 0 && TotalSize(ms + [Member(p, File(target, size))]) == TotalSize(ms) + size
  {
    assert (ms + [Member(p, File(target, size))])[..|ms|] == ms;
  }

  // ----- Member names -----

  /** File systems allow no slash inside a name. */
  predicate Plain(p: Path) {
    forall k :: 0 <= k < |p| ==> '/' !in p[k]
  }

  ghost predicate PlainNames(t: Tree) {
    forall d, n :: d in t.dirs && n in t.dirs[d] ==> '/' !in n
  }

  /** The name a member is written under. */
  function Posix(p: Path): string
    requires p != []
  {
    if |p| == 1 then p[0] else p[0] + "/" + Posix(p[1..])
  }

  lemma {:induction false} PosixInjective(p: Path, q: Path)
    requires p != [] && q != [] && Plain(p) && Plain(q) && Posix(p) == Posix(q)
    ensures p == q
  {
    FirstSlash(p);
    FirstSlash(q);
    if |p| > 1 && |q| > 1 {
      assert Posix(p[1..]) == Posix(p)[|p[0]| + 1..] == Posix(q[1..]);
      PosixInjective(p[1..], q[1..]);
      assert p == [p[0]] + p[1..] && q == [q[0]] + q[1..];
    }
  }

  /** The first name of a path ends where its text has the first slash, or at its end. */
  lemma FirstSlash(p: Path)
    requires p != [] && Plain(p)
    ensures var s, n := Posix(p), |p[0]|;
            && n <= |s| && p[0] == s[..n] && (forall k :: 0 <= k < n ==> s[k] != '/')
            && (|p| == 1 <==> n == |s|) && (|p| > 1 ==> s[n] == '/')
  {
    forall k | 0 <= k < |p[0]| ensures Posix(p)[k] != '/' {
      assert Posix(p)[k] == p[0][k];
    }
  }

  lemma {:induction false} FollowedIsPlain(t: Tree, p: Path)
    requires PlainNames(t) && Follow(t, p).Some?
    ensures Plain(p)
  {
    if p != [] {
      FollowedIsPlain(t, Init(p));
      assert p == Init(p) + [Last(p)];
    }
  }

  /** No two members are written under the same name. */
  lemma MemberNamesDiffer(t: Tree, ms: seq<Member>, j: nat, k: nat)
    requires PlainNames(t) && Enumerates(t, ms) && j < k < |ms|
    ensures ms[j].path != [] && ms[k].path != [] && Posix(ms[j].path) != Posix(ms[k].path)
  {
    MemberIsPlain(t, ms[j].path);
    MemberIsPlain(t, ms[k].path);
    if Posix(ms[j].path) == Posix(ms[k].path) {
      PosixInjective(ms[j].path, ms[k].path);
    }
  }

  lemma MemberIsPlain(t: Tree, p: Path)
    requires PlainNames(t) && IsMember(t, p)
    ensures p != [] && Plain(p)
  {
    FollowedIsPlain(t, Init(p));
    assert p == Init(p) + [Last(p)];
  }

  /** What the storage guard measures is what the archive will write. */
  method MeasureThenArchive(t: Tree) returns (estimate: nat, written: seq<Member>)
    requires t.Valid()
    ensures Enumerates(t, written) && estimate == TotalSize(written)
    ensures forall k :: 0 <= k < |written| ==> t.root <= written[k].file.target
  {
    var skipped;
    estimate := TreeSize(t);
    written, skipped := CreateArchive(t);
  }
}
