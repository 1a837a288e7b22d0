/** What the counters of a refresh say, read off the tables before and after it. */
module LibraryCounters {
  import opened Options
  import opened LibraryIndex
  import opened LibraryTheorems

  // ---- what became of a row --------------------------------------------------------

  /** A row that this scan wrote. */
  predicate SeenNow(a: Asset, root: nat, generation: nat) { a.rootId == root && a.seen == generation }

  datatype Fate = New | Renamed | Same | Changed

  predicate SameFile(a: Asset, b: Asset) { !a.missing && a.kind == b.kind && a.size == b.size && a.ticks == b.ticks }

  /** What became of row `id`, which is `row` now. */
  function FateOf(before: map<nat, Asset>, id: nat, row: Asset): Fate {
    if id !in before then New
    else if before[id].relativePath != row.relativePath then Renamed
    else if SameFile(before[id], row) then Same
    else Changed
  }

  /** The rows of this scan with a fate. */
  function Tally(before: map<nat, Asset>, after: map<nat, Asset>, root: nat, generation: nat, fate: Fate): set<nat> {
    set id | id in after && SeenNow(after[id], root, generation) && FateOf(before, id, after[id]) == fate
  }

  /** The rows of this scan whose metadata was read, without success. */
  function Unparsed(before: map<nat, Asset>, after: map<nat, Asset>, root: nat, generation: nat): set<nat> {
    set id | id in after && SeenNow(after[id], root, generation) && FateOf(before, id, after[id]) != Same
             && after[id].parsed.ParseError?
  }

  ghost predicate CountsMatch(before: map<nat, Asset>, after: map<nat, Asset>, root: nat, generation: nat, s: Stats) {
    && s.inserted == |Tally(before, after, root, generation, New)|
    && s.moved == |Tally(before, after, root, generation, Renamed)|
    && s.unmodified == |Tally(before, after, root, generation, Same)|
    && s.updated == |Tally(before, after, root, generation, Changed)|
    && s.parseErrors == |Unparsed(before, after, root, generation)|
  }

  // ---- one file --------------------------------------------------------------------

  /** What this scan has written is neither the file's own row nor a move candidate. */
  lemma SeenIsLeftAlone(assets: map<nat, Asset>, course: Course, root: nat, generation: nat, items: seq<Scanned>,
                        item: Scanned, id: nat)
    requires StillThere(course, items + [item]) && DistinctPaths(items + [item])
    requires RowsHaveFiles(assets, root, generation, course, items)
    requires id in assets && SeenNow(assets[id], root, generation)
    ensures !At(assets, id, root, item.relativePath) && !Candidate(assets, course(|items|), root, item, id)
  {
    var all := items + [item];
    assert all[|items|] == item;
    var k :| 0 <= k < |items| && Shows(assets[id], root, generation, course(k), items[k]);
    assert all[k] == items[k];
    WrittenIsNoCandidate(assets, root, generation, course(k), items[k], course(|items|), item, id);
  }

  /** No row is written twice in one scan. */
  lemma WrittenWasNotSeen(db: Database, course: Course, tools: Tools, root: nat, generation: nat, items: seq<Scanned>,
                          item: Scanned)
    requires Sound(db) && TicksOf(course(|items|).stamped, item.path).Some?
    requires StillThere(course, items + [item]) && DistinctPaths(items + [item])
    requires RowsHaveFiles(db.assets, root, generation, course, items)
    ensures var id := Written(db, course(|items|), tools, root, generation, item).0;
            id in db.assets ==> !SeenNow(db.assets[id], root, generation)
  {
    hide Written, Unique, Candidate, RowsHaveFiles, StillThere, DistinctPaths, SeenNow;
    forall id | id in db.assets && SeenNow(db.assets[id], root, generation)
      ensures !At(db.assets, id, root, item.relativePath) && !Candidate(db.assets, course(|items|), root, item, id)
    {
      SeenIsLeftAlone(db.assets, course, root, generation, items, item, id);
    }
    WrittenIsAtPathOrCandidate(db, course(|items|), tools, root, generation, item);
  }

  /** The decision is the fate of the row it writes. */
  lemma DecisionIsFate(before: map<nat, Asset>, db: Database, look: Look, tools: Tools, root: nat, generation: nat,
                       item: Scanned)
    requires Sound(db) && TicksOf(look.stamped, item.path).Some? && (forall id :: id in before ==> id < db.nextId)
    requires var id := Written(db, look, tools, root, generation, item).0;
             id in db.assets ==> id in before && db.assets[id] == before[id]
    ensures var (id, row) := Written(db, look, tools, root, generation, item);
            FateOf(before, id, row) == match Decide(db.assets, look, tools, root, item, TicksOf(look.stamped, item.path).value)
                                       case Insert => New
                                       case Recover(_) => Renamed
                                       case Touch(_) => Same
                                       case Update(_) => Changed
  {
    var ticks := TicksOf(look.stamped, item.path).value;
    var d := Decide(db.assets, look, tools, root, item, ticks);
    hide Calculated, ParsedOf, Unique;
    if d.Touch? || d.Update? {
      assert At(db.assets, d.id, root, item.relativePath);
    }
  }

  lemma TallyGrows(before: map<nat, Asset>, assets: map<nat, Asset>, root: nat, generation: nat, id: nat, row: Asset,
                   fate: Fate)
    requires SeenNow(row, root, generation) && (id in assets ==> !SeenNow(assets[id], root, generation))
    ensures |Tally(before, assets[id := row], root, generation, fate)|
            == |Tally(before, assets, root, generation, fate)| + if FateOf(before, id, row) == fate then 1 else 0
  {
    var some, more := Tally(before, assets, root, generation, fate), Tally(before, assets[id := row], root, generation, fate);
    assert id !in some && (id in more <==> FateOf(before, id, row) == fate);
    assert forall i :: i != id ==> (i in more <==> i in some);
    hide FateOf, Tally, SeenNow;
    OneMore(some, more, id);
  }

  lemma OneMore(some: set<nat>, more: set<nat>, id: nat)
    requires id !in some && forall i :: i != id ==> (i in more <==> i in some)
    ensures |more| == |some| + if id in more then 1 else 0
  {
    assert more == if id in more then some + {id} else some;
  }

  lemma UnparsedGrows(before: map<nat, Asset>, assets: map<nat, Asset>, root: nat, generation: nat, id: nat, row: Asset)
    requires SeenNow(row, root, generation) && (id in assets ==> !SeenNow(assets[id], root, generation))
    ensures |Unparsed(before, assets[id := row], root, generation)|
            == |Unparsed(before, assets, root, generation)|
               + if FateOf(before, id, row) != Same && row.parsed.ParseError? then 1 else 0
  {
    var some, more := Unparsed(before, assets, root, generation), Unparsed(before, assets[id := row], root, generation);
    assert id !in some && (id in more <==> FateOf(before, id, row) != Same && row.parsed.ParseError?);
    assert forall i :: i != id ==> (i in more <==> i in some);
    hide FateOf, Unparsed, SeenNow;
    OneMore(some, more, id);
  }

  /** The counters after one more file. */
  lemma OneMoreCounted(before: map<nat, Asset>, db: Database, look: Look, tools: Tools, root: nat, generation: nat,
                       item: Scanned, s: Stats)
    requires Sound(db) && root in db.roots && db.roots[root].generation == generation
    requires TicksOf(look.stamped, item.path).Some? && (forall id :: id in before ==> id < db.nextId)
    requires var id := Written(db, look, tools, root, generation, item).0;
             id in db.assets ==> id in before && db.assets[id] == before[id] && !SeenNow(before[id], root, generation)
    requires CountsMatch(before, db.assets, root, generation, s)
    ensures var (after, t) := IndexOne(db, look, tools, root, generation, item, s);
            CountsMatch(before, after.assets, root, generation, t)
  {
    var (id, row) := Written(db, look, tools, root, generation, item);
    OneRowIsWritten(db, look, tools, root, generation, item, s);
    DecisionIsFate(before, db, look, tools, root, generation, item);
    CounterOfDecision(db, look, tools, root, generation, item, s);
    hide IndexOne, Written, Decide, Sound, FateOf, Tally, Unparsed;
    TallyGrows(before, db.assets, root, generation, id, row, New);
    TallyGrows(before, db.assets, root, generation, id, row, Renamed);
    TallyGrows(before, db.assets, root, generation, id, row, Same);
    TallyGrows(before, db.assets, root, generation, id, row, Changed);
    UnparsedGrows(before, db.assets, root, generation, id, row);
  }

  lemma CounterOfDecision(db: Database, look: Look, tools: Tools, root: nat, generation: nat, item: Scanned, s: Stats)
    requires TicksOf(look.stamped, item.path).Some?
    ensures var t := IndexOne(db, look, tools, root, generation, item, s).1;
            var d := Decide(db.assets, look, tools, root, item, TicksOf(look.stamped, item.path).value);
            && t.inserted == s.inserted + (if d.Insert? then 1 else 0)
            && t.moved == s.moved + (if d.Recover? then 1 else 0)
            && t.unmodified == s.unmodified + (if d.Touch? then 1 else 0)
            && t.updated == s.updated + (if d.Update? then 1 else 0)
            && t.parseErrors
               == s.parseErrors
                  + (if !d.Touch? && Written(db, look, tools, root, generation, item).1.parsed.ParseError? then 1 else 0)
  {
    hide Decide, Calculated, ParsedOf;
  }

  // ---- the whole scan --------------------------------------------------------------

  lemma NothingCounted(assets: map<nat, Asset>, root: nat, generation: nat, fate: Fate)
    requires forall id :: id in assets && assets[id].rootId == root ==> assets[id].seen != generation
    ensures Tally(assets, assets, root, generation, fate) == {} && Unparsed(assets, assets, root, generation) == {}
  {
  }

  lemma {:induction false} ScanCounts(db: Database, course: Course, tools: Tools, root: nat, generation: nat,
                                      items: seq<Scanned>, n: nat)
    requires Sound(db) && root in db.roots && db.roots[root].generation == generation
    requires Stamped(course, items) && StillThere(course, items) && DistinctPaths(items)
    requires forall id :: id in db.assets && db.assets[id].rootId == root ==> db.assets[id].seen != generation
    ensures var (after, t) := IndexAll(db, course, tools, root, generation, items, Stats(n, 0, 0, 0, 0, 0, 0, 0));
            CountsMatch(db.assets, after.assets, root, generation, t)
  {
    var s := Stats(n, 0, 0, 0, 0, 0, 0, 0);
    if items == [] {
      NothingCounted(db.assets, root, generation, New);
      NothingCounted(db.assets, root, generation, Renamed);
      NothingCounted(db.assets, root, generation, Same);
      NothingCounted(db.assets, root, generation, Changed);
    } else {
      var init, last := items[..|items| - 1], items[|items| - 1];
      assert items == init + [last];
      PrefixIsFine(course, init, last);
      var (before, t) := IndexAll(db, course, tools, root, generation, init, s);
      hide Sound, CountsMatch, IndexOne, Stamped, StillThere, DistinctPaths, Agrees, Preserves, Rewrites;
      ScanCounts(db, course, tools, root, generation, init, n);
      ScanAgrees(db, course, tools, root, generation, init, s);
      ScanPreserves(db, course, tools, root, generation, init, s);
      LastCounted(db, before, course, tools, root, generation, init, last, t);
    }
  }

  lemma PrefixIsFine(course: Course, init: seq<Scanned>, last: Scanned)
    requires Stamped(course, init + [last]) && StillThere(course, init + [last]) && DistinctPaths(init + [last])
    ensures Stamped(course, init) && StillThere(course, init) && DistinctPaths(init)
    ensures TicksOf(course(|init|).stamped, last.path).Some?
  {
    assert (init + [last])[|init|] == last;
    assert forall k :: 0 <= k < |init| ==> (init + [last])[k] == init[k];
  }

  lemma LastCounted(db: Database, before: Database, course: Course, tools: Tools, root: nat, generation: nat,
                    init: seq<Scanned>, last: Scanned, t: Stats)
    requires Sound(db) && Sound(before) && root in before.roots && before.roots[root].generation == generation
    requires Stamped(course, init + [last]) && StillThere(course, init + [last]) && DistinctPaths(init + [last])
    requires Preserves(db, before, root) && Rewrites(db, before, generation)
    requires Agrees(before.assets, root, generation, course, init)
    requires CountsMatch(db.assets, before.assets, root, generation, t)
    ensures var (after, u) := IndexOne(before, course(|init|), tools, root, generation, last, t);
            CountsMatch(db.assets, after.assets, root, generation, u)
  {
    var look := course(|init|);
    assert (init + [last])[|init|] == last;
    WrittenWasNotSeen(before, course, tools, root, generation, init, last);
    var (id, row) := Written(before, look, tools, root, generation, last);
    OneRowIsWritten(before, look, tools, root, generation, last, t);
    assert forall i :: i in db.assets ==> i < before.nextId;
    hide CountsMatch, Written, IndexOne, Agrees, Stamped, StillThere, DistinctPaths, Shows;
    OneMoreCounted(db.assets, before, look, tools, root, generation, last, t);
  }

  lemma MarkingKeepsCounts(before: map<nat, Asset>, indexed: map<nat, Asset>, root: nat, generation: nat, s: Stats)
    requires CountsMatch(before, indexed, root, generation, s)
    ensures CountsMatch(before, Marked(indexed, root, generation), root, generation, s)
  {
    var after := Marked(indexed, root, generation);
    forall id | id in indexed
      ensures SeenNow(after[id], root, generation) <==> SeenNow(indexed[id], root, generation)
      ensures FateOf(before, id, after[id]) == FateOf(before, id, indexed[id])
      ensures after[id].parsed == indexed[id].parsed
    {
    }
    hide SeenNow, FateOf, Marked;
    forall fate: Fate
      ensures Tally(before, after, root, generation, fate) == Tally(before, indexed, root, generation, fate)
    {
    }
    assert Unparsed(before, after, root, generation) == Unparsed(before, indexed, root, generation);
  }

  // ---- the counters of a refresh ---------------------------------------------------

  /** A refresh that goes through, of files that stay there and have different relative paths:
      inserted is the number of ids that are new; moved, of ids whose relative path changed;
      unchanged and updated, of the other rows of this scan, by whether the row was present with
      the same kind, size and time; and parse errors, of the rows that are not unchanged and hold
      one. */
  lemma CountersAreRight(db: Database, course: Course, tools: Tools, root: nat, items: seq<Scanned>)
    requires Sound(db) && Refresh(db, course, tools, root, true, items).1.Refreshed?
    requires StillThere(course, items) && DistinctPaths(items)
    ensures root in db.roots
    ensures var (after, stats) := (Refresh(db, course, tools, root, true, items).0.assets,
                                   Refresh(db, course, tools, root, true, items).1.stats);
            var (was, generation) := (db.assets, db.roots[root].generation + 1);
            && was.Keys <= after.Keys
            && stats.inserted == |after.Keys - was.Keys|
            && stats.moved == |set id | id in was && after[id].relativePath != was[id].relativePath|
            && stats.unmodified
               == |set id | id in was && SeenNow(after[id], root, generation) && after[id].relativePath == was[id].relativePath
                            && SameFile(was[id], after[id])|
            && stats.updated
               == |set id | id in was && SeenNow(after[id], root, generation) && after[id].relativePath == was[id].relativePath
                            && !SameFile(was[id], after[id])|
            && stats.parseErrors
               == |set id | id in after && SeenNow(after[id], root, generation) && after[id].parsed.ParseError?
                            && !(id in was && after[id].relativePath == was[id].relativePath && SameFile(was[id], after[id]))|
  {
    OnlyRootsAreNeeded(db, course, tools, root, items);
    hide Refresh, Sound, CountsMatch, SeenNow, SameFile, StillThere, DistinctPaths, Stamped;
    var generation := Generation(db, root);
    var (after, outcome) := Refresh(db, course, tools, root, true, items);
    RefreshCounts(db, course, tools, root, items);
    SetsOfTallies(db.assets, after.assets, root, generation, outcome.stats);
  }

  ghost predicate RowsExplained(was: map<nat, Asset>, after: map<nat, Asset>, root: nat, generation: nat) {
    && was.Keys <= after.Keys
    && (forall id :: id in after && id !in was ==> SeenNow(after[id], root, generation))
    && (forall id :: id in was && after[id].relativePath != was[id].relativePath ==> SeenNow(after[id], root, generation))
  }

  lemma SetsOfTallies(was: map<nat, Asset>, after: map<nat, Asset>, root: nat, generation: nat, stats: Stats)
    requires RowsExplained(was, after, root, generation) && CountsMatch(was, after, root, generation, stats)
    ensures stats.inserted == |after.Keys - was.Keys|
    ensures stats.moved == |set id | id in was && after[id].relativePath != was[id].relativePath|
    ensures stats.unmodified
            == |set id | id in was && SeenNow(after[id], root, generation) && after[id].relativePath == was[id].relativePath
                         && SameFile(was[id], after[id])|
    ensures stats.updated
            == |set id | id in was && SeenNow(after[id], root, generation) && after[id].relativePath == was[id].relativePath
                         && !SameFile(was[id], after[id])|
    ensures stats.parseErrors
            == |set id | id in after && SeenNow(after[id], root, generation) && after[id].parsed.ParseError?
                         && !(id in was && after[id].relativePath == was[id].relativePath && SameFile(was[id], after[id]))|
  {
    hide SeenNow, SameFile;
    TalliesAreSets(was, after, root, generation);
    UnparsedIsSet(was, after, root, generation);
    hide Tally, Unparsed, RowsExplained;
  }

  lemma TalliesAreSets(was: map<nat, Asset>, after: map<nat, Asset>, root: nat, generation: nat)
    requires RowsExplained(was, after, root, generation)
    ensures Tally(was, after, root, generation, New) == after.Keys - was.Keys
    ensures Tally(was, after, root, generation, Renamed)
            == set id | id in was && after[id].relativePath != was[id].relativePath
    ensures Tally(was, after, root, generation, Same)
            == set id | id in was && SeenNow(after[id], root, generation) && after[id].relativePath == was[id].relativePath
                        && SameFile(was[id], after[id])
    ensures Tally(was, after, root, generation, Changed)
            == set id | id in was && SeenNow(after[id], root, generation) && after[id].relativePath == was[id].relativePath
                        && !SameFile(was[id], after[id])
  {
    hide SeenNow, SameFile;
  }

  lemma UnparsedIsSet(was: map<nat, Asset>, after: map<nat, Asset>, root: nat, generation: nat)
    requires RowsExplained(was, after, root, generation)
    ensures Unparsed(was, after, root, generation)
            == set id | id in after && SeenNow(after[id], root, generation) && after[id].parsed.ParseError?
                        && !(id in was && after[id].relativePath == was[id].relativePath && SameFile(was[id], after[id]))
  {
    hide SeenNow, SameFile;
  }

  lemma RefreshCounts(db: Database, course: Course, tools: Tools, root: nat, items: seq<Scanned>)
    requires Sound(db) && root in db.roots && db.roots[root].enabled && Stamped(course, items)
    requires StillThere(course, items) && DistinctPaths(items)
    ensures var (after, outcome) := Refresh(db, course, tools, root, true, items);
            && outcome.Refreshed?
            && CountsMatch(db.assets, after.assets, root, Generation(db, root), outcome.stats)
            && RowsExplained(db.assets, after.assets, root, Generation(db, root))
  {
    var generation := Generation(db, root);
    var (indexed, stats) := ScannedInto(db, course, tools, root, items);
    BeginIsSound(db, root);
    ScanCounts(Begun(db, root), course, tools, root, generation, items, |items|);
    ScanFacts(db, course, tools, root, items);
    hide IndexAll, Sound, Stamped, StillThere, DistinctPaths, CountsMatch, RowsExplained, Preserves, Rewrites, Marked;
    MarkingKeepsCounts(db.assets, indexed.assets, root, generation, stats);
    MarkedIsExplained(db, indexed, root, generation);
    CountsIgnoreMissing(db.assets, Marked(indexed.assets, root, generation), root, generation, stats,
                        |VanishedIds(indexed.assets, root, generation)|);
  }

  lemma CountsIgnoreMissing(before: map<nat, Asset>, after: map<nat, Asset>, root: nat, generation: nat, s: Stats, n: nat)
    requires CountsMatch(before, after, root, generation, s)
    ensures CountsMatch(before, after, root, generation, s.(newlyMissing := n))
  {
  }

  lemma MarkedIsExplained(db: Database, indexed: Database, root: nat, generation: nat)
    requires Preserves(db, indexed, root) && Rewrites(db, indexed, generation)
    ensures RowsExplained(db.assets, Marked(indexed.assets, root, generation), root, generation)
  {
    var after := Marked(indexed.assets, root, generation);
    forall id | id in after
      ensures SeenNow(after[id], root, generation) <==> SeenNow(indexed.assets[id], root, generation)
      ensures after[id].relativePath == indexed.assets[id].relativePath
    {
    }
    hide Marked;
    forall id | id in db.assets && after[id].relativePath != db.assets[id].relativePath
      ensures SeenNow(after[id], root, generation)
    {
      assert KeepsRow(db.assets[id], indexed.assets[id], root);
    }
  }

  // ---- hashing failures ------------------------------------------------------------

  /** The table when file `k` is processed. */
  ghost function TableAt(db: Database, course: Course, tools: Tools, root: nat, generation: nat, items: seq<Scanned>,
                         s: Stats, k: nat): map<nat, Asset>
    requires Stamped(course, items) && k <= |items|
  {
    IndexAll(db, course, tools, root, generation, items[..k], s).0.assets
  }

  /** The files that had to be hashed, because a row they may have been moved from exists and
      they have none of their own, and could not be read. */
  ghost function Unhashed(db: Database, course: Course, tools: Tools, root: nat, generation: nat, items: seq<Scanned>,
                          s: Stats): set<nat>
    requires Stamped(course, items)
  {
    set k | 0 <= k < |items| && NotHashed(db, course, tools, root, generation, items, s, k)
  }

  ghost predicate NotHashed(db: Database, course: Course, tools: Tools, root: nat, generation: nat, items: seq<Scanned>,
                            s: Stats, k: nat)
    requires Stamped(course, items) && k < |items|
  {
    var table := TableAt(db, course, tools, root, generation, items, s, k);
    && (forall id :: id in table && table[id].rootId == root ==> table[id].relativePath != items[k].relativePath)
    && (exists id :: Candidate(table, course(k), root, items[k], id))
    && ContentOf(course(k).hashed, items[k].path).None?
  }

  lemma FailureIs(assets: map<nat, Asset>, look: Look, root: nat, item: Scanned)
    ensures HashFails(assets, look, root, item) <==>
              && (forall id :: id in assets && assets[id].rootId == root ==> assets[id].relativePath != item.relativePath)
              && (exists id :: Candidate(assets, look, root, item, id))
              && ContentOf(look.hashed, item.path).None?
  {
    hide Candidate;
    assert Indexed(assets, root, item.relativePath) <==>
             exists id :: id in assets && assets[id].rootId == root && assets[id].relativePath == item.relativePath by {
      if Indexed(assets, root, item.relativePath) {
        var id :| At(assets, id, root, item.relativePath);
      }
      if id :| id in assets && assets[id].rootId == root && assets[id].relativePath == item.relativePath {
        assert At(assets, id, root, item.relativePath);
      }
    }
  }

  /** The hash issues are exactly these. */
  lemma {:induction false} HashIssuesAreRight(db: Database, course: Course, tools: Tools, root: nat, generation: nat,
                                              items: seq<Scanned>, s: Stats)
    requires Stamped(course, items)
    ensures IndexAll(db, course, tools, root, generation, items, s).1.hashIssues
            == s.hashIssues + |Unhashed(db, course, tools, root, generation, items, s)|
  {
    if items != [] {
      var n := |items| - 1;
      var init, last := items[..n], items[n];
      HashIssuesAreRight(db, course, tools, root, generation, init, s);
      var before := IndexAll(db, course, tools, root, generation, init, s).0;
      FailureIs(before.assets, course(n), root, last);
      IssueOfOne(before, course(n), tools, root, generation, last, IndexAll(db, course, tools, root, generation, init, s).1);
      hide IndexOne, HashFails;
      var some, all := Unhashed(db, course, tools, root, generation, init, s),
                       Unhashed(db, course, tools, root, generation, items, s);
      SamePrefix(db, course, tools, root, generation, items, s);
      assert n in all <==> HashFails(before.assets, course(n), root, last) by {
        assert items[..n] == init;
      }
      hide IndexAll, NotHashed;
      assert forall k :: k != n ==> (k in all <==> k in some);
      hide Unhashed;
      OneMore(some, all, n);
    }
  }

  lemma SamePrefix(db: Database, course: Course, tools: Tools, root: nat, generation: nat, items: seq<Scanned>, s: Stats)
    requires Stamped(course, items) && items != []
    ensures Stamped(course, items[..|items| - 1])
    ensures forall k :: 0 <= k < |items| - 1 ==>
              (NotHashed(db, course, tools, root, generation, items[..|items| - 1], s, k)
               <==> NotHashed(db, course, tools, root, generation, items, s, k))
  {
    var init := items[..|items| - 1];
    forall k | 0 <= k < |init|
      ensures NotHashed(db, course, tools, root, generation, init, s, k)
          <==> NotHashed(db, course, tools, root, generation, items, s, k)
    {
      assert init[..k] == items[..k] && init[k] == items[k];
    }
  }

  lemma IssueOfOne(db: Database, look: Look, tools: Tools, root: nat, generation: nat, item: Scanned, s: Stats)
    requires TicksOf(look.stamped, item.path).Some?
    ensures IndexOne(db, look, tools, root, generation, item, s).1.hashIssues
            == s.hashIssues + if HashFails(db.assets, look, root, item) then 1 else 0
  {
    hide Decide, Calculated, HashFails;
  }
}
