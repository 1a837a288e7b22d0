/** What a refresh guarantees: the index agrees with the disk, nothing else is lost, counters
    add up, refreshing again changes nothing, and stored hashes stay true. */
module LibraryTheorems {
  import opened Options
  import opened LibraryIndex

  // ---- one scanned file ------------------------------------------------------------

  /** The row says what the scan says about the file. */
  predicate Shows(a: Asset, root: nat, generation: nat, look: Look, item: Scanned) {
    && a.rootId == root && a.relativePath == item.relativePath && a.path == item.path && a.kind == item.kind
    && a.size == item.size && TicksOf(look.stamped, item.path) == Some(a.ticks) && a.seen == generation && !a.missing
  }

  /** The id and the row that `IndexOne` writes. */
  ghost function Written(db: Database, look: Look, tools: Tools, root: nat, generation: nat, item: Scanned): (nat, Asset)
    requires TicksOf(look.stamped, item.path).Some?
  {
    var ticks := TicksOf(look.stamped, item.path).value;
    Row(db, root, generation, item, ticks, ParsedOf(look, tools, item), Calculated(db.assets, look, tools, root, item),
        Decide(db.assets, look, tools, root, item, ticks))
  }

  /** One row is written. It shows the file; an old row keeps its id and its user data; a new
      row takes the next id; and the table's constraints survive. */
  lemma OneRowIsWritten(db: Database, look: Look, tools: Tools, root: nat, generation: nat, item: Scanned, s: Stats)
    requires Sound(db) && root in db.roots && db.roots[root].generation == generation
    requires TicksOf(look.stamped, item.path).Some?
    ensures var (id, row) := Written(db, look, tools, root, generation, item);
            var after := IndexOne(db, look, tools, root, generation, item, s).0;
            && after.assets == db.assets[id := row] && after.roots == db.roots && Sound(after)
            && Shows(row, root, generation, look, item)
            && (id in db.assets ==> row.user == db.assets[id].user && db.assets[id].rootId == root)
            && (id !in db.assets ==> id == db.nextId && row.user == NEW_USER_DATA)
            && (Indexed(db.assets, root, item.relativePath) ==> At(db.assets, id, root, item.relativePath))
  {
    var ticks := TicksOf(look.stamped, item.path).value;
    var d := Decide(db.assets, look, tools, root, item, ticks);
    var (id, row) := Written(db, look, tools, root, generation, item);
    var after := IndexOne(db, look, tools, root, generation, item, s).0;
    UniqueAfter(db.assets, id, row);
    hide Calculated;
  }

  lemma UniqueAfter(assets: map<nat, Asset>, id: nat, row: Asset)
    requires Unique(assets)
    requires forall j :: At(assets, j, row.rootId, row.relativePath) ==> j == id
    ensures Unique(assets[id := row])
  {
    var after := assets[id := row];
    forall i, j | i in after && At(after, j, after[i].rootId, after[i].relativePath)
      ensures i == j
    {
      if i == id && j != id {
        assert At(assets, j, row.rootId, row.relativePath);
      } else if i != id && j == id {
        assert At(assets, i, row.rootId, row.relativePath);
      } else if i != id {
        assert At(assets, j, assets[i].rootId, assets[i].relativePath);
      }
    }
  }

  // ---- the whole scan --------------------------------------------------------------

  /** Nothing but the scanned root is touched, no row disappears or changes hands, and what
      the user entered stays. */
  ghost predicate Preserves(db: Database, after: Database, root: nat) {
    && db.assets.Keys <= after.assets.Keys && db.nextId <= after.nextId
    && (forall id :: id in after.assets && id !in db.assets ==>
          id >= db.nextId && after.assets[id].rootId == root && after.assets[id].user == NEW_USER_DATA)
    && (forall id :: id in db.assets ==> KeepsRow(db.assets[id], after.assets[id], root))
  }

  /** A row is rewritten by this scan or left exactly as it was. */
  ghost predicate Rewrites(db: Database, after: Database, generation: nat) {
    forall id :: id in after.assets ==>
      (id in db.assets && after.assets[id] == db.assets[id])
      || (after.assets[id].seen == generation && !after.assets[id].missing)
  }

  predicate KeepsRow(a: Asset, b: Asset, root: nat) {
    b.rootId == a.rootId && b.user == a.user && (a.rootId != root ==> b == a)
  }

  lemma WritePreserves(db: Database, before: Database, after: Database, root: nat, generation: nat, id: nat, row: Asset)
    requires Rewrites(db, before, generation) && row.seen == generation && !row.missing
    requires Preserves(db, before, root) && (forall j :: j in before.assets ==> j < before.nextId)
    requires after.assets == before.assets[id := row] && after.nextId >= before.nextId && row.rootId == root
    requires id in before.assets ==> row.user == before.assets[id].user && before.assets[id].rootId == root
    requires id !in before.assets ==> id == before.nextId && row.user == NEW_USER_DATA
    ensures Preserves(db, after, root) && Rewrites(db, after, generation)
  {
    forall j | j in db.assets
      ensures KeepsRow(db.assets[j], after.assets[j], root)
    {
      assert KeepsRow(db.assets[j], before.assets[j], root);
    }
  }

  lemma {:induction false} ScanPreserves(db: Database, course: Course, tools: Tools, root: nat, generation: nat,
                                         items: seq<Scanned>, s: Stats)
    requires Sound(db) && root in db.roots && db.roots[root].generation == generation && Stamped(course, items)
    ensures var after := IndexAll(db, course, tools, root, generation, items, s).0;
            Sound(after) && after.roots == db.roots && Preserves(db, after, root) && Rewrites(db, after, generation)
  {
    if items != [] {
      var init := items[..|items| - 1];
      ScanPreserves(db, course, tools, root, generation, init, s);
      var (before, t) := IndexAll(db, course, tools, root, generation, init, s);
      var last := items[|items| - 1];
      OneRowIsWritten(before, course(|items| - 1), tools, root, generation, last, t);
      var (id, row) := Written(before, course(|items| - 1), tools, root, generation, last);
      var after := IndexOne(before, course(|items| - 1), tools, root, generation, last, t).0;
      WritePreserves(db, before, after, root, generation, id, row);
      hide Decide, Row, Calculated, Preserves, Sound;
    }
  }

  /** The counters add up to the number of files. */
  function Handled(s: Stats): nat { s.inserted + s.updated + s.moved + s.unmodified }

  lemma {:induction false} EveryFileIsCounted(db: Database, course: Course, tools: Tools, root: nat, generation: nat,
                                              items: seq<Scanned>, s: Stats)
    requires Stamped(course, items)
    ensures var t := IndexAll(db, course, tools, root, generation, items, s).1;
            Handled(t) == Handled(s) + |items| && t.discovered == s.discovered && t.newlyMissing == s.newlyMissing
  {
    if items != [] {
      EveryFileIsCounted(db, course, tools, root, generation, items[..|items| - 1], s);
      hide Decide, Calculated;
    }
  }

  // ---- the index agrees with the disk ----------------------------------------------

  predicate DistinctPaths(items: seq<Scanned>) {
    forall i, j :: 0 <= i < j < |items| ==> items[i].relativePath != items[j].relativePath
  }

  /** A file of the scan is still there when later ones are processed. */
  predicate StillThere(course: Course, items: seq<Scanned>) {
    forall j, k :: 0 <= j < k < |items| ==> items[j].path in course(k).present
  }

  /** A row that shows one of the files. */
  predicate ShowsOne(a: Asset, root: nat, generation: nat, course: Course, items: seq<Scanned>) {
    exists k :: 0 <= k < |items| && Shows(a, root, generation, course(k), items[k])
  }

  /** Each file has its row, and each row seen in this scan has its file. */
  ghost predicate Agrees(assets: map<nat, Asset>, root: nat, generation: nat, course: Course, items: seq<Scanned>) {
    FilesHaveRows(assets, root, generation, course, items) && RowsHaveFiles(assets, root, generation, course, items)
  }

  ghost predicate FilesHaveRows(assets: map<nat, Asset>, root: nat, generation: nat, course: Course, items: seq<Scanned>) {
    forall k :: 0 <= k < |items| ==> HasRow(assets, root, generation, course(k), items[k])
  }

  predicate RowsHaveFiles(assets: map<nat, Asset>, root: nat, generation: nat, course: Course, items: seq<Scanned>) {
    forall id :: id in assets && assets[id].rootId == root && assets[id].seen == generation ==>
      ShowsOne(assets[id], root, generation, course, items)
  }

  ghost predicate HasRow(assets: map<nat, Asset>, root: nat, generation: nat, look: Look, item: Scanned) {
    exists id :: At(assets, id, root, item.relativePath) && Shows(assets[id], root, generation, look, item)
  }

  /** A row written earlier in this scan is not taken for a move: its file is still there. */
  lemma WrittenIsNoCandidate(assets: map<nat, Asset>, root: nat, generation: nat, past: Look, earlier: Scanned,
                             now: Look, item: Scanned, id: nat)
    requires id in assets && Shows(assets[id], root, generation, past, earlier) && earlier.path in now.present
    ensures !Candidate(assets, now, root, item, id)
  {
  }

  /** So it keeps its row when the next file is processed. */
  lemma EarlierRowStays(db: Database, root: nat, generation: nat, past: Look, earlier: Scanned,
                        now: Look, tools: Tools, item: Scanned)
    requires Sound(db) && TicksOf(now.stamped, item.path).Some? && earlier.path in now.present
    requires earlier.relativePath != item.relativePath && HasRow(db.assets, root, generation, past, earlier)
    ensures var (id, row) := Written(db, now, tools, root, generation, item);
            HasRow(db.assets[id := row], root, generation, past, earlier)
  {
    var (id, row) := Written(db, now, tools, root, generation, item);
    WrittenIsAtPathOrCandidate(db, now, tools, root, generation, item);
    hide Written, Shows, Unique;
    var other :| At(db.assets, other, root, earlier.relativePath) && Shows(db.assets[other], root, generation, past, earlier);
    WrittenIsNoCandidate(db.assets, root, generation, past, earlier, now, item, other);
    hide Candidate;
    assert other != id;
    assert At(db.assets[id := row], other, root, earlier.relativePath);
  }

  lemma EarlierRowsStay(db: Database, root: nat, generation: nat, course: Course, tools: Tools, items: seq<Scanned>,
                        item: Scanned)
    requires Sound(db) && TicksOf(course(|items|).stamped, item.path).Some?
    requires StillThere(course, items + [item]) && DistinctPaths(items + [item])
    requires FilesHaveRows(db.assets, root, generation, course, items)
    ensures var (id, row) := Written(db, course(|items|), tools, root, generation, item);
            FilesHaveRows(db.assets[id := row], root, generation, course, items)
  {
    var all, look := items + [item], course(|items|);
    assert all[|items|] == item;
    var (id, row) := Written(db, look, tools, root, generation, item);
    hide Written, Sound, HasRow;
    forall k | 0 <= k < |items|
      ensures HasRow(db.assets[id := row], root, generation, course(k), items[k])
    {
      assert all[k] == items[k];
      EarlierRowStays(db, root, generation, course(k), items[k], look, tools, item);
    }
  }

  /** The new row shows the new file, and the other rows of this scan show what they showed. */
  lemma RowsStillShow(assets: map<nat, Asset>, root: nat, generation: nat, course: Course, items: seq<Scanned>,
                      item: Scanned, id: nat, row: Asset)
    requires RowsHaveFiles(assets, root, generation, course, items) && Shows(row, root, generation, course(|items|), item)
    ensures RowsHaveFiles(assets[id := row], root, generation, course, items + [item])
  {
    var after, all := assets[id := row], items + [item];
    hide Shows;
    forall other | other in after && after[other].rootId == root && after[other].seen == generation
      ensures ShowsOne(after[other], root, generation, course, all)
    {
      if other == id {
        assert Shows(row, root, generation, course(|items|), all[|items|]);
      } else {
        var k :| 0 <= k < |items| && Shows(assets[other], root, generation, course(k), items[k]);
        assert Shows(after[other], root, generation, course(k), all[k]);
      }
    }
  }

  lemma OneMoreAgrees(db: Database, course: Course, tools: Tools, root: nat, generation: nat, items: seq<Scanned>,
                      item: Scanned, s: Stats)
    requires Sound(db) && root in db.roots && db.roots[root].generation == generation
    requires Stamped(course, items + [item]) && StillThere(course, items + [item]) && DistinctPaths(items + [item])
    requires Agrees(db.assets, root, generation, course, items)
    ensures (items + [item])[|items|] == item
    ensures Agrees(IndexOne(db, course(|items|), tools, root, generation, item, s).0.assets, root, generation, course,
                   items + [item])
  {
    var all, look := items + [item], course(|items|);
    assert all[|items|] == item && forall k :: 0 <= k < |items| ==> all[k] == items[k];
    OneRowIsWritten(db, look, tools, root, generation, item, s);
    var (id, row) := Written(db, look, tools, root, generation, item);
    assert At(db.assets[id := row], id, root, item.relativePath);
    hide IndexOne, Written, Sound, Shows;
    RowsStillShow(db.assets, root, generation, course, items, item, id, row);
    EarlierRowsStay(db, root, generation, course, tools, items, item);
    hide RowsHaveFiles;
    assert HasRow(db.assets[id := row], root, generation, look, item);
  }

  /** The row that is overwritten, if any, is the file's own or a move candidate. */
  lemma WrittenIsAtPathOrCandidate(db: Database, look: Look, tools: Tools, root: nat, generation: nat, item: Scanned)
    requires TicksOf(look.stamped, item.path).Some?
    ensures var id := Written(db, look, tools, root, generation, item).0;
            id in db.assets ==>
              At(db.assets, id, root, item.relativePath) || Candidate(db.assets, look, root, item, id) || id == db.nextId
  {
  }

  lemma {:induction false} ScanAgrees(db: Database, course: Course, tools: Tools, root: nat, generation: nat,
                                      items: seq<Scanned>, s: Stats)
    requires Sound(db) && root in db.roots && db.roots[root].generation == generation
    requires Stamped(course, items) && StillThere(course, items) && DistinctPaths(items)
    requires forall id :: id in db.assets && db.assets[id].rootId == root ==> db.assets[id].seen != generation
    ensures Agrees(IndexAll(db, course, tools, root, generation, items, s).0.assets, root, generation, course, items)
  {
    if items != [] {
      var init, last := items[..|items| - 1], items[|items| - 1];
      assert items == init + [last];
      ScanAgrees(db, course, tools, root, generation, init, s);
      ScanPreserves(db, course, tools, root, generation, init, s);
      var (before, t) := IndexAll(db, course, tools, root, generation, init, s);
      OneMoreAgrees(before, course, tools, root, generation, init, last, t);
      hide IndexOne, Agrees, Sound;
    }
  }

  /** Rows of the scanned root whose file is gone. */
  function NewlyMissing(db: Database, after: Database): set<nat> {
    set id | id in db.assets && id in after.assets && !db.assets[id].missing && after.assets[id].missing
  }

  lemma BeginIsSound(db: Database, root: nat)
    requires Sound(db) && root in db.roots
    ensures Sound(Begun(db, root))
    ensures forall id :: id in db.assets && db.assets[id].rootId == root ==> db.assets[id].seen != Generation(db, root)
  {
  }

  lemma ScanFacts(db: Database, course: Course, tools: Tools, root: nat, items: seq<Scanned>)
    requires Sound(db) && root in db.roots && Stamped(course, items)
    ensures var (indexed, stats) := ScannedInto(db, course, tools, root, items);
            && Sound(indexed) && Preserves(db, indexed, root) && Rewrites(db, indexed, Generation(db, root))
            && indexed.roots == Begun(db, root).roots
            && stats.discovered == |items| == Handled(stats)
  {
    var begun := Begun(db, root);
    var started := Stats(|items|, 0, 0, 0, 0, 0, 0, 0);
    BeginIsSound(db, root);
    ScanPreserves(begun, course, tools, root, Generation(db, root), items, started);
    EveryFileIsCounted(begun, course, tools, root, Generation(db, root), items, started);
    hide IndexAll, Sound;
  }

  lemma MarkingKeepsUnique(assets: map<nat, Asset>, root: nat, generation: nat)
    requires Unique(assets)
    ensures Unique(Marked(assets, root, generation))
  {
    var after := Marked(assets, root, generation);
    forall i, j | i in after && At(after, j, after[i].rootId, after[i].relativePath)
      ensures i == j
    {
      assert At(assets, j, assets[i].rootId, assets[i].relativePath);
    }
  }

  lemma MarkingKeeps(db: Database, indexed: Database, root: nat, generation: nat)
    requires Sound(indexed) && Preserves(db, indexed, root) && Rewrites(db, indexed, generation)
    ensures var after := indexed.(assets := Marked(indexed.assets, root, generation));
            && Sound(after) && Preserves(db, after, root)
            && VanishedIds(indexed.assets, root, generation) == NewlyMissing(db, after)
  {
    var after := indexed.(assets := Marked(indexed.assets, root, generation));
    MarkingKeepsUnique(indexed.assets, root, generation);
    hide Unique;
    forall id | id in db.assets
      ensures KeepsRow(db.assets[id], after.assets[id], root)
    {
      assert KeepsRow(db.assets[id], indexed.assets[id], root);
    }
    forall id | id in VanishedIds(indexed.assets, root, generation)
      ensures id in NewlyMissing(db, after)
    {
      assert indexed.assets[id] == db.assets[id];
    }
    forall id | id in NewlyMissing(db, after)
      ensures id in VanishedIds(indexed.assets, root, generation)
    {
    }
  }

  /** A refresh goes through exactly for a known and enabled root that is available and whose
      files all have a readable time; otherwise the outcome says which was missing first. */
  lemma RefreshSucceedsIff(db: Database, course: Course, tools: Tools, root: nat, available: bool, items: seq<Scanned>)
    ensures var outcome := Refresh(db, course, tools, root, available, items).1;
            && (outcome.UnknownRoot? <==> root in db.roots ==> !db.roots[root].enabled)
            && (outcome.RootUnavailable? <==> root in db.roots && db.roots[root].enabled && !available)
            && (outcome.Refreshed? <==> root in db.roots && db.roots[root].enabled && available
                                        && forall k :: 0 <= k < |items| ==> TicksOf(course(k).stamped, items[k].path).Some?)
  {
    hide ScannedInto;
  }

  /** A refresh of any outcome keeps the constraints, every row and id, all user data and all
      other roots; when it succeeds its counters are exact. */
  lemma RefreshLosesNothing(db: Database, course: Course, tools: Tools, root: nat, available: bool, items: seq<Scanned>)
    requires Sound(db)
    ensures var (after, outcome) := Refresh(db, course, tools, root, available, items);
            && Sound(after) && Preserves(db, after, root)
            && (!outcome.Refreshed? ==> after == db)
            && (outcome.Refreshed? ==>
                  && outcome.stats.discovered == |items| == Handled(outcome.stats)
                  && outcome.stats.newlyMissing == |NewlyMissing(db, after)|
                  && after.roots == Begun(db, root).roots)
  {
    hide ScannedInto, Marked, VanishedIds, NewlyMissing, Sound, Rewrites;
    if Refresh(db, course, tools, root, available, items).1.Refreshed? {
      ScanFacts(db, course, tools, root, items);
      MarkingKeeps(db, ScannedInto(db, course, tools, root, items).0, root, Generation(db, root));
    }
  }

  /** After a refresh the rows of the root that are not missing are exactly the scanned files,
      each with the size and the time the disk shows. */
  lemma IndexAgreesWithDisk(db: Database, course: Course, tools: Tools, root: nat, available: bool, items: seq<Scanned>)
    requires Sound(db) && Refresh(db, course, tools, root, available, items).1.Refreshed?
    requires StillThere(course, items) && DistinctPaths(items)
    ensures var after := Refresh(db, course, tools, root, available, items).0;
            var generation := Generation(db, root);
            && (forall k :: 0 <= k < |items| ==> HasRow(after.assets, root, generation, course(k), items[k]))
            && (forall id :: id in after.assets && after.assets[id].rootId == root && !after.assets[id].missing ==>
                  ShowsOne(after.assets[id], root, generation, course, items))
  {
    var generation := Generation(db, root);
    BeginIsSound(db, root);
    ScanAgrees(Begun(db, root), course, tools, root, generation, items, Stats(|items|, 0, 0, 0, 0, 0, 0, 0));
    var indexed := ScannedInto(db, course, tools, root, items).0;
    var after := Refresh(db, course, tools, root, available, items).0;
    assert after.assets == Marked(indexed.assets, root, generation);
    hide IndexAll, Refresh, Sound;
    forall k | 0 <= k < |items|
      ensures HasRow(after.assets, root, generation, course(k), items[k])
    {
      var id :| At(indexed.assets, id, root, items[k].relativePath)
                && Shows(indexed.assets[id], root, generation, course(k), items[k]);
      assert At(after.assets, id, root, items[k].relativePath);
    }
  }

  // ---- refreshing again ------------------------------------------------------------

  predicate Listed(a: Asset, root: nat, items: seq<Scanned>) {
    a.rootId == root && !a.missing && exists k :: 0 <= k < |items| && items[k].relativePath == a.relativePath
  }

  /** Only the generation of the listed rows changes. */
  function Bumped(assets: map<nat, Asset>, root: nat, generation: nat, items: seq<Scanned>): (r: map<nat, Asset>)
    ensures r.Keys == assets.Keys
  {
    map id | id in assets :: if Listed(assets[id], root, items) then assets[id].(seen := generation) else assets[id]
  }

  lemma TouchedOnly(db: Database, look: Look, tools: Tools, root: nat, generation: nat, item: Scanned, s: Stats,
                    id: nat)
    requires Unique(db.assets) && At(db.assets, id, root, item.relativePath)
    requires TicksOf(look.stamped, item.path).Some? && Unchanged(db.assets[id], item, TicksOf(look.stamped, item.path).value)
    requires db.assets[id].path == item.path
    ensures IndexOne(db, look, tools, root, generation, item, s)
            == (db.(assets := db.assets[id := db.assets[id].(seen := generation)]), s.(unmodified := s.unmodified + 1))
  {
    assert Lookup(db.assets, root, item.relativePath) == id;
  }

  lemma BumpedAt(assets: map<nat, Asset>, root: nat, generation: nat, before: nat, look: Look,
                 items: seq<Scanned>, item: Scanned, id: nat)
    requires Unique(assets) && At(assets, id, root, item.relativePath) && Shows(assets[id], root, before, look, item)
    ensures var bumped := Bumped(assets, root, generation, items);
            && Unique(bumped) && At(bumped, id, root, item.relativePath)
            && bumped[id := bumped[id].(seen := generation)] == Bumped(assets, root, generation, items + [item])
            && Unchanged(bumped[id], item, assets[id].ticks) && bumped[id].path == item.path
  {
    var bumped := Bumped(assets, root, generation, items);
    forall i, j | i in bumped && At(bumped, j, bumped[i].rootId, bumped[i].relativePath)
      ensures i == j
    {
      assert At(assets, j, assets[i].rootId, assets[i].relativePath);
    }
    forall i | i in assets
      ensures Listed(assets[i], root, items + [item]) <==> Listed(assets[i], root, items) || i == id
    {
      assert (items + [item])[|items|] == item;
      assert forall k :: 0 <= k < |items| ==> (items + [item])[k] == items[k];
      if Listed(assets[i], root, items + [item]) && i != id {
        assert At(assets, i, assets[id].rootId, assets[id].relativePath) ==> i == id;
      }
    }
  }

  lemma ShownTicks(a: Asset, root: nat, generation: nat, look: Look, item: Scanned)
    requires Shows(a, root, generation, look, item)
    ensures TicksOf(look.stamped, item.path) == Some(a.ticks)
  {
  }

  lemma ScanOneMore(db: Database, course: Course, tools: Tools, root: nat, generation: nat, init: seq<Scanned>,
                    last: Scanned, s: Stats)
    requires Stamped(course, init + [last])
    ensures (init + [last])[..|init|] == init && (init + [last])[|init|] == last
    ensures Stamped(course, init)
    ensures var (d, t) := IndexAll(db, course, tools, root, generation, init, s);
            IndexAll(db, course, tools, root, generation, init + [last], s)
            == IndexOne(d, course(|init|), tools, root, generation, last, t)
  {
    assert (init + [last])[..|init|] == init && (init + [last])[|init|] == last;
    assert forall k :: 0 <= k < |init| ==> (init + [last])[k] == init[k];
    hide IndexOne;
  }

  function Kept(s: Stats, n: nat): Stats { s.(unmodified := s.unmodified + n) }

  lemma QuietStep(db: Database, look: Look, tools: Tools, root: nat, generation: nat, before: nat,
                  init: seq<Scanned>, last: Scanned, s: Stats)
    requires Unique(db.assets) && HasRow(db.assets, root, before, look, last) && TicksOf(look.stamped, last.path).Some?
    ensures IndexOne(db.(assets := Bumped(db.assets, root, generation, init)), look, tools, root, generation, last,
                     Kept(s, |init|))
            == (db.(assets := Bumped(db.assets, root, generation, init + [last])), Kept(s, |init + [last]|))
  {
    var id :| At(db.assets, id, root, last.relativePath) && Shows(db.assets[id], root, before, look, last);
    hide IndexOne, Bumped, Unique, Shows;
    BumpedAt(db.assets, root, generation, before, look, init, last, id);
    ShownTicks(db.assets[id], root, before, look, last);
    TouchedOnly(db.(assets := Bumped(db.assets, root, generation, init)), look, tools, root, generation, last,
                Kept(s, |init|), id);
  }

  lemma ShownPrefix(assets: map<nat, Asset>, root: nat, before: nat, course: Course, init: seq<Scanned>, last: Scanned)
    requires FilesHaveRows(assets, root, before, course, init + [last]) && Stamped(course, init + [last])
    ensures FilesHaveRows(assets, root, before, course, init) && HasRow(assets, root, before, course(|init|), last)
    ensures TicksOf(course(|init|).stamped, last.path).Some?
  {
    assert (init + [last])[|init|] == last;
    assert forall k :: 0 <= k < |init| ==> (init + [last])[k] == init[k];
    hide HasRow;
  }

  lemma {:induction false} QuietScan(db: Database, course: Course, tools: Tools, root: nat, generation: nat, before: nat,
                                     items: seq<Scanned>, s: Stats)
    requires Unique(db.assets) && FilesHaveRows(db.assets, root, before, course, items) && Stamped(course, items)
    ensures IndexAll(db, course, tools, root, generation, items, s)
            == (db.(assets := Bumped(db.assets, root, generation, items)), Kept(s, |items|))
  {
    if items == [] {
      assert Bumped(db.assets, root, generation, items) == db.assets;
    } else {
      var init, last := items[..|items| - 1], items[|items| - 1];
      assert items == init + [last];
      ScanOneMore(db, course, tools, root, generation, init, last, s);
      ShownPrefix(db.assets, root, before, course, init, last);
      hide IndexOne, Bumped, Unique, Shows, IndexAll, HasRow, FilesHaveRows, Kept;
      QuietScan(db, course, tools, root, generation, before, init, s);
      QuietStep(db, course(|init|), tools, root, generation, before, init, last, s);
    }
  }

  /** The rows that are not missing are the files. */
  ghost predicate InStep(assets: map<nat, Asset>, root: nat, before: nat, course: Course, items: seq<Scanned>) {
    && Unique(assets) && FilesHaveRows(assets, root, before, course, items)
    && forall id :: id in assets && assets[id].rootId == root && !assets[id].missing ==>
         ShowsOne(assets[id], root, before, course, items)
  }

  /** A refresh of an index that already shows every file. */
  lemma QuietRefresh(once: Database, course: Course, tools: Tools, root: nat, before: nat, items: seq<Scanned>)
    requires InStep(once.assets, root, before, course, items)
    requires root in once.roots && once.roots[root].enabled && Stamped(course, items)
    ensures var (twice, outcome) := Refresh(once, course, tools, root, true, items);
            && outcome == Refreshed(Stats(|items|, 0, 0, 0, |items|, 0, 0, 0))
            && twice.assets == Bumped(once.assets, root, Generation(once, root), items)
  {
    QuietScan(Begun(once, root), course, tools, root, Generation(once, root), before, items,
              Stats(|items|, 0, 0, 0, 0, 0, 0, 0));
    NothingVanishes(once, root, Generation(once, root), before, course, items);
    hide IndexAll, Bumped, Marked, VanishedIds, HasRow, ShowsOne;
  }

  /** Each file still has the time that was recorded. */
  predicate SameTimes(course: Course, again: Course, items: seq<Scanned>) {
    forall k :: 0 <= k < |items| ==> TicksOf(course(k).stamped, items[k].path) == TicksOf(again(k).stamped, items[k].path)
  }

  lemma StillInStep(assets: map<nat, Asset>, root: nat, before: nat, course: Course, again: Course, items: seq<Scanned>)
    requires InStep(assets, root, before, course, items) && Stamped(course, items) && SameTimes(course, again, items)
    ensures InStep(assets, root, before, again, items) && Stamped(again, items)
  {
    forall k, a: Asset | 0 <= k < |items|
      ensures Shows(a, root, before, course(k), items[k]) <==> Shows(a, root, before, again(k), items[k])
    {
    }
    hide Shows, Unique;
    forall k | 0 <= k < |items|
      ensures HasRow(assets, root, before, again(k), items[k])
    {
      assert HasRow(assets, root, before, course(k), items[k]);
    }
  }

  /** Refreshing again, while the files have the recorded times, finds every file unchanged and
      nothing newly missing, and only the generation of the rows moves on. */
  lemma SecondRefreshIsQuiet(db: Database, course: Course, again: Course, tools: Tools, root: nat, items: seq<Scanned>)
    requires Sound(db) && Refresh(db, course, tools, root, true, items).1.Refreshed?
    requires StillThere(course, items) && DistinctPaths(items) && SameTimes(course, again, items)
    ensures var once := Refresh(db, course, tools, root, true, items).0;
            var (twice, outcome) := Refresh(once, again, tools, root, true, items);
            && outcome == Refreshed(Stats(|items|, 0, 0, 0, |items|, 0, 0, 0))
            && twice.assets == Bumped(once.assets, root, db.roots[root].generation + 2, items)
  {
    hide Sound, InStep, Refresh, Bumped, SameTimes, StillThere, Stamped, DistinctPaths;
    var once := Refresh(db, course, tools, root, true, items).0;
    FirstRefreshIsInStep(db, course, tools, root, items);
    StillInStep(once.assets, root, Generation(db, root), course, again, items);
    QuietRefresh(once, again, tools, root, Generation(db, root), items);
  }

  lemma FirstRefreshIsInStep(db: Database, course: Course, tools: Tools, root: nat, items: seq<Scanned>)
    requires Sound(db) && Refresh(db, course, tools, root, true, items).1.Refreshed?
    requires StillThere(course, items) && DistinctPaths(items)
    ensures root in db.roots && Stamped(course, items)
    ensures var once := Refresh(db, course, tools, root, true, items).0;
            && InStep(once.assets, root, Generation(db, root), course, items)
            && root in once.roots && once.roots[root] == db.roots[root].(generation := db.roots[root].generation + 1)
            && once.roots[root].enabled
  {
    OnlyRootsAreNeeded(db, course, tools, root, items);
    hide ScannedInto, Marked, VanishedIds, Preserves, NewlyMissing, Handled, ShowsOne, HasRow, Refresh, Unique;
    RefreshLosesNothing(db, course, tools, root, true, items);
    IndexAgreesWithDisk(db, course, tools, root, true, items);
  }

  lemma OnlyRootsAreNeeded(db: Database, course: Course, tools: Tools, root: nat, items: seq<Scanned>)
    requires Refresh(db, course, tools, root, true, items).1.Refreshed?
    ensures root in db.roots && db.roots[root].enabled && Stamped(course, items)
  {
  }

  lemma NothingVanishes(once: Database, root: nat, generation: nat, before: nat, course: Course, items: seq<Scanned>)
    requires forall id :: id in once.assets && once.assets[id].rootId == root && !once.assets[id].missing ==>
               ShowsOne(once.assets[id], root, before, course, items)
    ensures var bumped := Bumped(once.assets, root, generation, items);
            VanishedIds(bumped, root, generation) == {} && Marked(bumped, root, generation) == bumped
  {
    var bumped := Bumped(once.assets, root, generation, items);
    forall id | id in bumped
      ensures !Vanished(bumped[id], root, generation)
    {
      if once.assets[id].rootId == root && !once.assets[id].missing {
        assert ShowsOne(once.assets[id], root, before, course, items);
      }
    }
  }
}
