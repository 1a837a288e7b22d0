/** Why a stored hash can be trusted: over any run of refreshes, on-demand hashing, edits and
    file changes it is the hash of the bytes that had the recorded size and time. */
module LibraryHashCache {
  import opened Options
  import opened LibraryIndex
  import opened LibraryTheorems

  /** The one assumption about the disk: a path, a size and a time determine the bytes. */
  type Past = (string, nat, int) -> Content

  ghost predicate Consistent(fs: FileSystem, past: Past) {
    forall path :: path in fs && fs[path].ticks.Some? && fs[path].content.Some? ==>
      fs[path].content.value == past(path, fs[path].size, fs[path].ticks.value)
  }

  /** Where a relative path of a root lies. */
  type Layout = (nat, string) -> string

  predicate LaidOut(items: seq<Scanned>, root: nat, layout: Layout) {
    forall k :: 0 <= k < |items| ==> items[k].path == layout(root, items[k].relativePath)
  }

  /** What a row has stored about the bytes is true of the bytes it was stored for. */
  predicate TrueRow(a: Asset, tools: Tools, past: Past, layout: Layout) {
    && a.path == layout(a.rootId, a.relativePath)
    && (a.hash.Some? ==> a.hash.value == tools.sha(past(a.path, a.size, a.ticks)))
    && (a.parsed.Metadata? ==> a.parsed == tools.parse(past(a.path, a.size, a.ticks)))
  }

  ghost predicate TrueRows(assets: map<nat, Asset>, tools: Tools, past: Past, layout: Layout) {
    forall id :: id in assets ==> TrueRow(assets[id], tools, past, layout)
  }

  // ---- what the disk vouches for ---------------------------------------------------

  /** The bytes a path shows under a size and a time. */
  function Shown(fs: FileSystem, path: string, size: nat, ticks: int): Option<Content> {
    if path in fs && fs[path].size == size && fs[path].ticks == Some(ticks) then fs[path].content else None
  }

  ghost predicate AllConsistent(seen: seq<FileSystem>, past: Past) {
    forall i :: 0 <= i < |seen| ==> Consistent(seen[i], past)
  }

  /** At one of the moments the path showed, under this size and time, bytes with this value. */
  ghost predicate Backed<T>(seen: seq<FileSystem>, path: string, size: nat, ticks: int, f: Content -> T, v: T) {
    exists i :: 0 <= i < |seen| && Shown(seen[i], path, size, ticks).Some? && f(Shown(seen[i], path, size, ticks).value) == v
  }

  /** The bytes that are found now were found under the size and the time. */
  predicate Undisturbed(seen: seq<FileSystem>, now: FileSystem, path: string, size: nat, ticks: int) {
    ContentOf(now, path).Some? ==>
      exists i :: 0 <= i < |seen| && Shown(seen[i], path, size, ticks) == ContentOf(now, path)
  }

  /** A value is that of the bytes with the recorded size and time, whatever was not seen of the
      past, exactly when one of the moments shows such bytes. */
  lemma TrueInEveryPastIff<T>(seen: seq<FileSystem>, path: string, size: nat, ticks: int, f: Content -> T, v: T,
                                  some: Past, other: Content)
    requires AllConsistent(seen, some) && f(other) != v
    ensures (forall past :: AllConsistent(seen, past) ==> f(past(path, size, ticks)) == v)
            <==> Backed(seen, path, size, ticks, f, v)
  {
    var changed: Past := (p, n, t) => if p == path && n == size && t == ticks then other else some(p, n, t);
    if i :| 0 <= i < |seen| && Shown(seen[i], path, size, ticks).Some? {
      assert forall past :: AllConsistent(seen, past) ==>
               Consistent(seen[i], past) && past(path, size, ticks) == Shown(seen[i], path, size, ticks).value;
    } else {
      assert forall k :: 0 <= k < |seen| ==> Shown(seen[k], path, size, ticks).None?;
      assert AllConsistent(seen, changed);
    }
  }

  lemma BackedIsTrue<T>(seen: seq<FileSystem>, path: string, size: nat, ticks: int, f: Content -> T, v: T, past: Past)
    requires Backed(seen, path, size, ticks, f, v) && AllConsistent(seen, past)
    ensures f(past(path, size, ticks)) == v
  {
    var i :| 0 <= i < |seen| && Shown(seen[i], path, size, ticks).Some? && f(Shown(seen[i], path, size, ticks).value) == v;
    assert Consistent(seen[i], past);
  }

  lemma UndisturbedIsBacked<T>(seen: seq<FileSystem>, now: FileSystem, path: string, size: nat, ticks: int,
                                   f: Content -> T)
    requires ContentOf(now, path).Some? && Undisturbed(seen, now, path, size, ticks)
    ensures Backed(seen, path, size, ticks, f, f(ContentOf(now, path).value))
  {
    var i :| 0 <= i < |seen| && Shown(seen[i], path, size, ticks) == ContentOf(now, path);
    assert Shown(seen[i], path, size, ticks).Some?;
  }

  // ---- a refresh -------------------------------------------------------------------

  /** The moments at which a refresh looks at a scanned file itself. */
  function SeenIn(look: Look): seq<FileSystem> { [look.stamped, look.hashed, look.parsed] }

  /** Different bytes can have different digests, and not all bytes are a model. */
  ghost predicate Discerning(tools: Tools) {
    (exists x, y :: tools.sha(x) != tools.sha(y)) && (exists z :: !tools.parse(z).Metadata?)
  }

  ghost predicate Touched(db: Database, look: Look, tools: Tools, root: nat, item: Scanned)
    requires TicksOf(look.stamped, item.path).Some?
  {
    Decide(db.assets, look, tools, root, item, TicksOf(look.stamped, item.path).value).Touch?
  }

  /** The bytes that were hashed, if their hash is stored, and the bytes the metadata was read
      from were those of the recorded size and time. */
  ghost predicate RowBacked(db: Database, look: Look, tools: Tools, root: nat, item: Scanned)
    requires TicksOf(look.stamped, item.path).Some?
  {
    var ticks := TicksOf(look.stamped, item.path).value;
    var d := Decide(db.assets, look, tools, root, item, ticks);
    !d.Touch? ==>
      && (!d.Update? && Calculated(db.assets, look, tools, root, item).Some? ==>
            Backed(SeenIn(look), item.path, item.size, ticks, tools.sha, tools.sha(ContentOf(look.hashed, item.path).value)))
      && (ParsedOf(look, tools, item).Metadata? ==>
            Backed(SeenIn(look), item.path, item.size, ticks, tools.parse, ParsedOf(look, tools, item)))
  }

  /** What a row that is not merely touched holds: the scanned size, the time, and values of the
      bytes found when they were looked for. */
  lemma WrittenValues(db: Database, look: Look, tools: Tools, root: nat, generation: nat, item: Scanned)
    requires TicksOf(look.stamped, item.path).Some? && !Touched(db, look, tools, root, item)
    ensures var row := Written(db, look, tools, root, generation, item).1;
            var ticks := TicksOf(look.stamped, item.path).value;
            var d := Decide(db.assets, look, tools, root, item, ticks);
            && row.rootId == root && row.path == item.path && row.relativePath == item.relativePath
            && row.size == item.size && row.ticks == ticks && row.parsed == ParsedOf(look, tools, item)
            && row.hash == (if d.Update? then None else Calculated(db.assets, look, tools, root, item))
            && (row.hash.Some? ==> row.hash.value == tools.sha(ContentOf(look.hashed, item.path).value))
            && row.parsed == (if item.kind == ImpulseResponse then NotApplicable
                              else if ContentOf(look.parsed, item.path).None? then ParseError
                              else tools.parse(ContentOf(look.parsed, item.path).value))
  {
  }

  /** For every moment at which the disk can be looked at: a row that a refresh writes is true,
      whatever was not seen of the past, exactly when what was hashed and parsed was vouched for. */
  lemma WrittenRowIsTrueIff(db: Database, look: Look, tools: Tools, root: nat, generation: nat, item: Scanned,
                            layout: Layout, some: Past)
    requires TicksOf(look.stamped, item.path).Some? && !Touched(db, look, tools, root, item) && Discerning(tools)
    requires item.path == layout(root, item.relativePath) && AllConsistent(SeenIn(look), some)
    ensures (forall past :: AllConsistent(SeenIn(look), past) ==>
               TrueRow(Written(db, look, tools, root, generation, item).1, tools, past, layout))
            <==> RowBacked(db, look, tools, root, item)
  {
    var row := Written(db, look, tools, root, generation, item).1;
    WrittenValues(db, look, tools, root, generation, item);
    hide Written, Decide, Calculated, ParsedOf, Backed, Consistent, AllConsistent;
    if row.hash.Some? {
      var other :| tools.sha(other) != row.hash.value;
      TrueInEveryPastIff(SeenIn(look), row.path, row.size, row.ticks, tools.sha, row.hash.value, some, other);
    }
    if row.parsed.Metadata? {
      var other :| !tools.parse(other).Metadata?;
      TrueInEveryPastIff(SeenIn(look), row.path, row.size, row.ticks, tools.parse, row.parsed, some, other);
    }
  }

  lemma WrittenRowIsTrue(db: Database, look: Look, tools: Tools, root: nat, generation: nat, item: Scanned,
                         past: Past, layout: Layout)
    requires TrueRows(db.assets, tools, past, layout) && TicksOf(look.stamped, item.path).Some?
    requires AllConsistent(SeenIn(look), past) && item.path == layout(root, item.relativePath)
    requires RowBacked(db, look, tools, root, item)
    ensures TrueRow(Written(db, look, tools, root, generation, item).1, tools, past, layout)
  {
    var ticks := TicksOf(look.stamped, item.path).value;
    var d := Decide(db.assets, look, tools, root, item, ticks);
    if d.Touch? {
      assert TrueRow(db.assets[d.id], tools, past, layout);
    } else {
      var row := Written(db, look, tools, root, generation, item).1;
      WrittenValues(db, look, tools, root, generation, item);
      hide Written, Decide, Calculated, ParsedOf, Backed, AllConsistent;
      if row.hash.Some? { BackedIsTrue(SeenIn(look), row.path, row.size, row.ticks, tools.sha, row.hash.value, past); }
      if row.parsed.Metadata? { BackedIsTrue(SeenIn(look), row.path, row.size, row.ticks, tools.parse, row.parsed, past); }
    }
  }

  /** Every row of the scan is vouched for when it is written. */
  ghost predicate ScanBacked(db: Database, course: Course, tools: Tools, root: nat, generation: nat, items: seq<Scanned>,
                             s: Stats)
    requires Stamped(course, items)
  {
    items != [] ==>
      var init, last := items[..|items| - 1], items[|items| - 1];
      && ScanBacked(db, course, tools, root, generation, init, s)
      && RowBacked(IndexAll(db, course, tools, root, generation, init, s).0, course(|items| - 1), tools, root, last)
  }

  ghost predicate CourseConsistent(course: Course, items: seq<Scanned>, past: Past) {
    forall k :: 0 <= k < |items| ==> AllConsistent(SeenIn(course(k)), past)
  }

  lemma {:induction false} ScanKeepsTrue(db: Database, course: Course, tools: Tools, root: nat, generation: nat,
                                         items: seq<Scanned>, s: Stats, past: Past, layout: Layout)
    requires Sound(db) && root in db.roots && db.roots[root].generation == generation && Stamped(course, items)
    requires TrueRows(db.assets, tools, past, layout) && CourseConsistent(course, items, past)
    requires ScanBacked(db, course, tools, root, generation, items, s) && LaidOut(items, root, layout)
    ensures TrueRows(IndexAll(db, course, tools, root, generation, items, s).0.assets, tools, past, layout)
  {
    if items != [] {
      var init, last, look := items[..|items| - 1], items[|items| - 1], course(|items| - 1);
      ScanKeepsTrue(db, course, tools, root, generation, init, s, past, layout);
      ScanPreserves(db, course, tools, root, generation, init, s);
      var (before, t) := IndexAll(db, course, tools, root, generation, init, s);
      hide IndexOne, Written, Sound, TrueRow, RowBacked, AllConsistent;
      WrittenRowIsTrue(before, look, tools, root, generation, last, past, layout);
      OneRowIsWritten(before, look, tools, root, generation, last, t);
    }
  }

  /** The files of a refresh that goes through are vouched for. */
  ghost predicate RefreshBacked(db: Database, course: Course, tools: Tools, root: nat, available: bool, items: seq<Scanned>) {
    Refresh(db, course, tools, root, available, items).1.Refreshed? ==>
      && root in db.roots && Stamped(course, items)
      && ScanBacked(Begun(db, root), course, tools, root, Generation(db, root), items, Stats(|items|, 0, 0, 0, 0, 0, 0, 0))
  }

  lemma RefreshKeepsTrue(db: Database, course: Course, tools: Tools, root: nat, available: bool, items: seq<Scanned>,
                         past: Past, layout: Layout)
    requires Sound(db) && TrueRows(db.assets, tools, past, layout) && CourseConsistent(course, items, past)
    requires RefreshBacked(db, course, tools, root, available, items) && LaidOut(items, root, layout)
    ensures TrueRows(Refresh(db, course, tools, root, available, items).0.assets, tools, past, layout)
  {
    if Refresh(db, course, tools, root, available, items).1.Refreshed? {
      var generation := Generation(db, root);
      BeginIsSound(db, root);
      ScanKeepsTrue(Begun(db, root), course, tools, root, generation, items, Stats(|items|, 0, 0, 0, 0, 0, 0, 0), past, layout);
      var indexed := ScannedInto(db, course, tools, root, items).0;
      assert Refresh(db, course, tools, root, available, items).0.assets == Marked(indexed.assets, root, generation);
      hide IndexAll, Sound, Refresh;
      forall id | id in indexed.assets
        ensures TrueRow(Marked(indexed.assets, root, generation)[id], tools, past, layout)
      {
        assert TrueRow(indexed.assets[id], tools, past, layout);
      }
    }
  }

  /** What was hashed and what was parsed was found under the scanned size and the time. */
  predicate Steady(look: Look, item: Scanned)
    requires TicksOf(look.stamped, item.path).Some?
  {
    var ticks := TicksOf(look.stamped, item.path).value;
    && Undisturbed(SeenIn(look), look.hashed, item.path, item.size, ticks)
    && Undisturbed(SeenIn(look), look.parsed, item.path, item.size, ticks)
  }

  /** A condition on the disk alone under which a row is vouched for whatever the index holds. */
  lemma SteadyIsBacked(db: Database, look: Look, tools: Tools, root: nat, item: Scanned)
    requires TicksOf(look.stamped, item.path).Some? && Steady(look, item)
    ensures RowBacked(db, look, tools, root, item)
  {
    var ticks := TicksOf(look.stamped, item.path).value;
    hide Undisturbed, Backed, Decide;
    if ContentOf(look.hashed, item.path).Some? {
      UndisturbedIsBacked(SeenIn(look), look.hashed, item.path, item.size, ticks, tools.sha);
    }
    if ContentOf(look.parsed, item.path).Some? {
      UndisturbedIsBacked(SeenIn(look), look.parsed, item.path, item.size, ticks, tools.parse);
    }
  }

  lemma {:induction false} SteadyScanIsBacked(db: Database, course: Course, tools: Tools, root: nat, generation: nat,
                                              items: seq<Scanned>, s: Stats)
    requires Stamped(course, items) && forall k :: 0 <= k < |items| ==> Steady(course(k), items[k])
    ensures ScanBacked(db, course, tools, root, generation, items, s)
  {
    if items != [] {
      var init, last := items[..|items| - 1], items[|items| - 1];
      hide Steady, RowBacked, IndexAll;
      SteadyScanIsBacked(db, course, tools, root, generation, init, s);
      SteadyIsBacked(IndexAll(db, course, tools, root, generation, init, s).0, course(|items| - 1), tools, root, last);
    }
  }

  /** A disk that does not change during the call vouches for everything. */
  lemma StillDiskIsBacked(db: Database, fs: FileSystem, tools: Tools, root: nat, available: bool, items: seq<Scanned>)
    requires forall k :: 0 <= k < |items| ==> items[k].path in fs && fs[items[k].path].size == items[k].size
    ensures RefreshBacked(db, Still(fs), tools, root, available, items)
  {
    var course := Still(fs);
    if Refresh(db, course, tools, root, available, items).1.Refreshed? {
      OnlyRootsAreNeeded(db, course, tools, root, items);
      forall k | 0 <= k < |items|
        ensures Steady(course(k), items[k])
      {
        assert SeenIn(course(k))[0] == fs;
      }
      hide ScanBacked, IndexAll, Refresh, Steady;
      SteadyScanIsBacked(Begun(db, root), course, tools, root, Generation(db, root), items,
                         Stats(|items|, 0, 0, 0, 0, 0, 0, 0));
    }
  }

  /** A file that is rewritten between the reading of its time and the reading of its metadata
      leaves the old time with the metadata of the new bytes: there is no second look. */
  lemma RewriteStoresFalseMetadata(tools: Tools, layout: Layout)
    requires tools.parse([1]).Metadata? && tools.parse([0]) != tools.parse([1])
    ensures exists db, course, items, past :: RewriteFools(db, course, tools, items, past, layout)
  {
    var item := Scanned(layout(0, "a.nam"), "a.nam", NamModel, 1);
    var db := Database(map[0 := Root("", true, 0)], map[], 0);
    var early, late := map[item.path := File(1, Some(1), Some([0]))], map[item.path := File(1, Some(2), Some([1]))];
    var look := Look(early, {}, late, late);
    var course: Course := _ => look;
    var past: Past := (_, _, ticks) => if ticks == 1 then [0] else [1];
    var row := NewRow(0, item, 1, 1, tools.parse([1]), None);
    assert !TrueRow(row, tools, past, layout);
    hide Refresh, Unique;
    NewFileIsInserted(db, course, tools, 0, item, 1);
    assert Refresh(db, course, tools, 0, true, [item]).0.assets[0] == row;
    assert RewriteFools(db, course, tools, [item], past, layout);
  }

  /** The first file of an empty index. */
  lemma NewFileIsInserted(db: Database, course: Course, tools: Tools, root: nat, item: Scanned, ticks: int)
    requires root in db.roots && db.roots[root].enabled && db.assets == map[]
    requires TicksOf(course(0).stamped, item.path) == Some(ticks)
    ensures var (after, outcome) := Refresh(db, course, tools, root, true, [item]);
            && outcome.Refreshed?
            && after.assets
               == map[db.nextId := NewRow(root, item, ticks, Generation(db, root), ParsedOf(course(0), tools, item), None)]
  {
    var begun, generation, s := Begun(db, root), Generation(db, root), Stats(1, 0, 0, 0, 0, 0, 0, 0);
    NothingIndexed(begun, course(0), tools, root, item);
    assert [item][..0] == [];
    hide Calculated, MovedFrom, Indexed;
    assert IndexAll(begun, course, tools, root, generation, [item], s)
        == IndexOne(begun, course(0), tools, root, generation, item, s);
  }

  lemma NothingIndexed(db: Database, look: Look, tools: Tools, root: nat, item: Scanned)
    requires db.assets == map[]
    ensures !Indexed(db.assets, root, item.relativePath) && Calculated(db.assets, look, tools, root, item).None?
    ensures forall id :: !MovedFrom(db.assets, look, tools, root, item, id)
  {
  }

  /** Every look obeys the assumption, the table is true, and yet it is not afterwards. */
  ghost predicate RewriteFools(db: Database, course: Course, tools: Tools, items: seq<Scanned>, past: Past, layout: Layout) {
    && Sound(db) && TrueRows(db.assets, tools, past, layout)
    && CourseConsistent(course, items, past) && LaidOut(items, 0, layout)
    && Refresh(db, course, tools, 0, true, items).1.Refreshed?
    && !TrueRows(Refresh(db, course, tools, 0, true, items).0.assets, tools, past, layout)
  }

  /** A row is recovered exactly when it is the only candidate whose hash is that of the new
      file; and its stored hash being true, the bytes it used to stand for hash the same. */
  lemma RecoveredIsTheUniqueMatch(assets: map<nat, Asset>, look: Look, tools: Tools, root: nat, item: Scanned,
                                  ticks: int, id: nat, past: Past, layout: Layout)
    requires TrueRows(assets, tools, past, layout)
    ensures Decide(assets, look, tools, root, item, ticks) == Recover(id) <==>
              && !Indexed(assets, root, item.relativePath)
              && Candidate(assets, look, root, item, id) && ContentOf(look.hashed, item.path).Some?
              && assets[id].hash == Some(tools.sha(ContentOf(look.hashed, item.path).value))
              && (forall other :: Candidate(assets, look, root, item, other) && assets[other].hash == assets[id].hash ==>
                    other == id)
    ensures Decide(assets, look, tools, root, item, ticks) == Recover(id) ==>
              tools.sha(past(assets[id].path, assets[id].size, assets[id].ticks))
              == tools.sha(ContentOf(look.hashed, item.path).value)
  {
    MovedFromIsUnique(assets, look, tools, root, item, id);
    if Decide(assets, look, tools, root, item, ticks) == Recover(id) {
      assert TrueRow(assets[id], tools, past, layout);
    }
    hide Calculated;
  }

  lemma MovedFromIsUnique(assets: map<nat, Asset>, look: Look, tools: Tools, root: nat, item: Scanned, id: nat)
    ensures MovedFrom(assets, look, tools, root, item, id) <==>
              && Candidate(assets, look, root, item, id) && ContentOf(look.hashed, item.path).Some?
              && assets[id].hash == Some(tools.sha(ContentOf(look.hashed, item.path).value))
              && (forall other :: Candidate(assets, look, root, item, other) && assets[other].hash == assets[id].hash ==>
                    other == id)
  {
    if Candidate(assets, look, root, item, id) {
      assert AnyCandidate(assets, look, root, item);
      forall other
        ensures Matches(assets, look, root, item, Calculated(assets, look, tools, root, item), other) <==>
                  Candidate(assets, look, root, item, other)
                  && assets[other].hash == Calculated(assets, look, tools, root, item)
      {
      }
    }
  }

  // ---- hashing on demand -----------------------------------------------------------

  /** The bytes that were hashed are those the file shows before or after, or the file has the
      recorded size and time while they are read. */
  predicate ReadUndisturbed(a: Asset, before: FileSystem, during: FileSystem, later: FileSystem) {
    || StampMatches(during, a)
    || ContentOf(during, a.path) == ContentOf(before, a.path)
    || ContentOf(during, a.path) == ContentOf(later, a.path)
  }

  /** The hash is computed and stored, not read from the table. */
  predicate Computes(db: Database, tools: Tools, id: nat, before: FileSystem, during: FileSystem, later: FileSystem) {
    id in db.assets && db.assets[id].hash.None? && Ensured(db, tools, id, before, during, later).1.Hashed?
  }

  lemma ComputedFacts(db: Database, tools: Tools, id: nat, before: FileSystem, during: FileSystem, later: FileSystem)
    requires Computes(db, tools, id, before, during, later)
    ensures var a := db.assets[id];
            && StampMatches(before, a) && StampMatches(later, a) && ContentOf(during, a.path).Some?
            && Ensured(db, tools, id, before, during, later).0.assets[id].hash
               == Some(tools.sha(ContentOf(during, a.path).value))
            && (ReadUndisturbed(a, before, during, later)
                <==> Undisturbed([before, during, later], during, a.path, a.size, a.ticks))
  {
    var a, seen := db.assets[id], [before, during, later];
    assert seen[0] == before && seen[1] == during && seen[2] == later;
  }

  /** For every table and every three moments: what `ensure_sha256` stores is the hash of the
      recorded bytes, whatever the digest and whatever was not seen of the past, exactly when
      the bytes were read undisturbed. */
  lemma EnsureIsTrueIff(db: Database, tools: Tools, id: nat, before: FileSystem, during: FileSystem, later: FileSystem,
                        some: Past)
    requires Computes(db, tools, id, before, during, later)
    requires AllConsistent([before, during, later], some)
    ensures (forall t: Tools, past :: AllConsistent([before, during, later], past)
                                      && Computes(db, t, id, before, during, later) ==>
               StoresTrueHash(db, t, id, before, during, later, past))
            <==> ReadUndisturbed(db.assets[id], before, during, later)
  {
    var a, seen, bytes := db.assets[id], [before, during, later], ContentOf(during, db.assets[id].path);
    ComputedFacts(db, tools, id, before, during, later);
    if ReadUndisturbed(a, before, during, later) {
      forall t: Tools, past | AllConsistent(seen, past) && Computes(db, t, id, before, during, later)
        ensures StoresTrueHash(db, t, id, before, during, later, past)
      {
        ComputedFacts(db, t, id, before, during, later);
        UndisturbedIsBacked(seen, during, a.path, a.size, a.ticks, t.sha);
        BackedIsTrue(seen, a.path, a.size, a.ticks, t.sha, t.sha(bytes.value), past);
      }
    } else {
      var same := (x: Content) => x == bytes.value;
      var other := bytes.value + [0];
      assert !same(other);
      TrueInEveryPastIff(seen, a.path, a.size, a.ticks, same, true, some, other);
      var past :| AllConsistent(seen, past) && !same(past(a.path, a.size, a.ticks));
      var t := Tools((x: Content) => if same(x) then "1" else "0", tools.parse);
      assert Computes(db, t, id, before, during, later);
      ComputedFacts(db, t, id, before, during, later);
      assert !StoresTrueHash(db, t, id, before, during, later, past);
    }
  }

  predicate StoresTrueHash(db: Database, tools: Tools, id: nat, before: FileSystem, during: FileSystem, later: FileSystem,
                           past: Past)
    requires id in db.assets
  {
    var after := Ensured(db, tools, id, before, during, later).0;
    var a := db.assets[id];
    id in after.assets && after.assets[id].hash == Some(tools.sha(past(a.path, a.size, a.ticks)))
  }

  /** It succeeds exactly for a present file with the recorded size and time whose hash is stored,
      or whose bytes can be read and leave it so; and a stored hash is returned as it is. */
  lemma EnsureSucceedsIff(db: Database, tools: Tools, id: nat, before: FileSystem, during: FileSystem, later: FileSystem)
    ensures Ensured(db, tools, id, before, during, later).1.Hashed? <==>
              && id in db.assets && !db.assets[id].missing && StampMatches(before, db.assets[id])
              && (db.assets[id].hash.Some?
                  || (ContentOf(during, db.assets[id].path).Some? && StampMatches(later, db.assets[id])))
    ensures id in db.assets && db.assets[id].hash.Some? && Ensured(db, tools, id, before, during, later).1.Hashed? ==>
              Ensured(db, tools, id, before, during, later) == (db, Hashed(db.assets[id].hash.value))
  {
  }

  /** What `ensure_sha256` returns is the hash of the recorded bytes, and it stores nothing else. */
  lemma EnsureKeepsTrue(db: Database, tools: Tools, id: nat, before: FileSystem, during: FileSystem, later: FileSystem,
                        past: Past, layout: Layout)
    requires Sound(db) && TrueRows(db.assets, tools, past, layout) && AllConsistent([before, during, later], past)
    requires Computes(db, tools, id, before, during, later) ==> ReadUndisturbed(db.assets[id], before, during, later)
    ensures var (after, outcome) := Ensured(db, tools, id, before, during, later);
            && Sound(after) && TrueRows(after.assets, tools, past, layout)
            && (outcome.Hashed? ==>
                  && id in db.assets && StampMatches(before, db.assets[id])
                  && after == db.(assets := db.assets[id := db.assets[id].(hash := Some(outcome.hash))])
                  && outcome.hash == tools.sha(past(db.assets[id].path, db.assets[id].size, db.assets[id].ticks)))
            && (!outcome.Hashed? ==> after == db)
  {
    var (after, outcome) := Ensured(db, tools, id, before, during, later);
    if outcome.Hashed? {
      var a := db.assets[id];
      assert TrueRow(a, tools, past, layout);
      if a.hash.None? {
        EnsureIsTrueIff(db, tools, id, before, during, later, past);
        assert StoresTrueHash(db, tools, id, before, during, later, past);
      }
      assert TrueRow(after.assets[id], tools, past, layout);
      UniqueAfter(db.assets, id, after.assets[id]);
      assert after.assets == db.assets[id := a.(hash := Some(outcome.hash))];
      hide Unique;
    }
  }

  /** The smallest case: a file that is rewritten and put back, with its old time, while it is
      being hashed passes every check and leaves the hash of other bytes. */
  lemma DetourStoresAFalseHash(tools: Tools, layout: Layout)
    requires tools.sha([0]) != tools.sha([1])
    ensures exists db, id, before, during, later, past :: DetourFools(db, tools, id, before, during, later, past, layout)
  {
    var path := layout(0, "a.nam");
    var row := Asset(0, path, "a.nam", NamModel, 1, 1, None, 0, false, ParseError, NEW_USER_DATA);
    var db := Database(map[0 := Root("", true, 0)], map[0 := row], 1);
    var calm := map[path := File(1, Some(1), Some([0]))];
    var during := map[path := File(1, Some(2), Some([1]))];
    var past: Past := (p: string, size: nat, ticks: int) => if ticks == 1 then [0] else [1];
    var after := Ensured(db, tools, 0, calm, during, calm).0;
    assert after.assets[0].hash == Some(tools.sha([1]));
    assert !TrueRow(after.assets[0], tools, past, layout);
    assert DetourFools(db, tools, 0, calm, during, calm, past, layout);
  }

  /** Every file system obeys the assumption, the table is true, and yet it is not afterwards. */
  ghost predicate DetourFools(db: Database, tools: Tools, id: nat, before: FileSystem, during: FileSystem,
                              later: FileSystem, past: Past, layout: Layout) {
    && Sound(db) && TrueRows(db.assets, tools, past, layout)
    && Consistent(before, past) && Consistent(during, past) && Consistent(later, past)
    && Ensured(db, tools, id, before, during, later).1.Hashed?
    && !TrueRows(Ensured(db, tools, id, before, during, later).0.assets, tools, past, layout)
  }

  // ---- whole runs ------------------------------------------------------------------

  datatype Event =
    | DoRefresh(course: Course, root: nat, available: bool, items: seq<Scanned>)
    | DoEnsure(id: nat, before: FileSystem, during: FileSystem, later: FileSystem)
    | AddRoot(root: nat, path: string)
    | Edit(id: nat, user: UserData)

  /** The disk determines its bytes, and vouches for what is written. */
  ghost predicate Plausible(db: Database, tools: Tools, e: Event, past: Past, layout: Layout) {
    match e
    case DoRefresh(course, root, available, items) =>
      && CourseConsistent(course, items, past) && LaidOut(items, root, layout)
      && RefreshBacked(db, course, tools, root, available, items)
    case DoEnsure(id, before, during, later) =>
      && AllConsistent([before, during, later], past)
      && (Computes(db, tools, id, before, during, later) ==> ReadUndisturbed(db.assets[id], before, during, later))
    case AddRoot(root, _) => root !in db.roots
    case Edit(_, _) => true
  }

  ghost function After(db: Database, tools: Tools, e: Event): Database {
    match e
    case DoRefresh(course, root, available, items) => Refresh(db, course, tools, root, available, items).0
    case DoEnsure(id, before, during, later) => Ensured(db, tools, id, before, during, later).0
    case AddRoot(root, path) => db.(roots := db.roots[root := Root(path, true, 0)])
    case Edit(id, user) =>
      if id in db.assets then db.(assets := db.assets[id := db.assets[id].(user := user)]) else db
  }

  ghost predicate Runs(db: Database, tools: Tools, events: seq<Event>, after: Database, past: Past, layout: Layout)
    decreases |events|
  {
    if events == [] then db == after
    else
      && Plausible(db, tools, events[0], past, layout)
      && Runs(After(db, tools, events[0]), tools, events[1..], after, past, layout)
  }

  lemma EditKeepsTrue(db: Database, tools: Tools, id: nat, user: UserData, past: Past, layout: Layout)
    requires Sound(db) && TrueRows(db.assets, tools, past, layout) && id in db.assets
    ensures Sound(After(db, tools, Edit(id, user))) && TrueRows(After(db, tools, Edit(id, user)).assets, tools, past, layout)
  {
    var row := db.assets[id].(user := user);
    UniqueAfter(db.assets, id, row);
    assert TrueRow(db.assets[id], tools, past, layout) ==> TrueRow(row, tools, past, layout);
    hide Unique;
  }

  lemma EventKeepsTrue(db: Database, tools: Tools, e: Event, past: Past, layout: Layout)
    requires Sound(db) && TrueRows(db.assets, tools, past, layout) && Plausible(db, tools, e, past, layout)
    ensures Sound(After(db, tools, e)) && TrueRows(After(db, tools, e).assets, tools, past, layout)
    ensures db.assets.Keys <= After(db, tools, e).assets.Keys
  {
    match e
    case DoRefresh(course, root, available, items) =>
      RefreshLosesNothing(db, course, tools, root, available, items);
      RefreshKeepsTrue(db, course, tools, root, available, items, past, layout);
      hide Refresh, Sound, TrueRows, NewlyMissing;
    case DoEnsure(id, before, during, later) =>
      EnsureKeepsTrue(db, tools, id, before, during, later, past, layout);
      hide Sound, TrueRows, Ensured;
    case AddRoot(_, _) =>
      hide TrueRow;
    case Edit(id, user) =>
      if id in db.assets { EditKeepsTrue(db, tools, id, user, past, layout); }
      hide Sound, TrueRows;
  }

  /** Over every run every stored hash, and all stored metadata, is that of the bytes that had
      the recorded size and time; and no row is ever lost. */
  lemma {:induction false} HashesStayTrue(db: Database, tools: Tools, events: seq<Event>, after: Database,
                                          past: Past, layout: Layout)
    requires Sound(db) && TrueRows(db.assets, tools, past, layout) && Runs(db, tools, events, after, past, layout)
    ensures Sound(after) && TrueRows(after.assets, tools, past, layout) && db.assets.Keys <= after.assets.Keys
    decreases |events|
  {
    if events != [] {
      EventKeepsTrue(db, tools, events[0], past, layout);
      HashesStayTrue(After(db, tools, events[0]), tools, events[1..], after, past, layout);
      hide Sound, TrueRows, After;
    }
  }
}
