/** The library database as an object whose tables the refresh loop and the on-demand hash
    update in place; each method is tied to the functions of `LibraryIndex`. */
module LibraryDatabase {
  import opened Options
  import opened LibraryIndex
  import opened LibraryTheorems

  /** Candidate ids with their stored hashes, in row order. */
  type Candidates = seq<(nat, Hash)>

  /** Exactly the move candidates below `bound`, each once. */
  ghost predicate Collects(c: Candidates, assets: map<nat, Asset>, look: Look, root: nat, item: Scanned, bound: nat) {
    && (forall j :: 0 <= j < |c| ==>
          c[j].0 < bound && Candidate(assets, look, root, item, c[j].0) && assets[c[j].0].hash == Some(c[j].1))
    && (forall i, j :: 0 <= i < j < |c| ==> c[i].0 < c[j].0)
    && (forall id :: 0 <= id < bound && Candidate(assets, look, root, item, id) ==>
          assets[id].hash.Some? && (id, assets[id].hash.value) in c)
  }

  lemma CollectNext(c: Candidates, assets: map<nat, Asset>, look: Look, root: nat, item: Scanned, id: nat)
    requires Collects(c, assets, look, root, item, id)
    ensures Candidate(assets, look, root, item, id) ==>
              assets[id].hash.Some? && Collects(c + [(id, assets[id].hash.value)], assets, look, root, item, id + 1)
    ensures !Candidate(assets, look, root, item, id) ==> Collects(c, assets, look, root, item, id + 1)
  {
    if Candidate(assets, look, root, item, id) {
      var d := c + [(id, assets[id].hash.value)];
      assert forall x :: x in c ==> x in d;
      assert d[|c|] in d;
      hide Candidate;
    }
  }

  lemma CollectsNone(assets: map<nat, Asset>, look: Look, root: nat, item: Scanned)
    ensures Collects([], assets, look, root, item, 0)
  {
  }

  lemma CandidateIs(assets: map<nat, Asset>, look: Look, root: nat, item: Scanned, id: nat)
    ensures Candidate(assets, look, root, item, id) <==>
              && id in assets && assets[id].rootId == root && assets[id].relativePath != item.relativePath
              && assets[id].kind == item.kind && assets[id].size == item.size && assets[id].hash.Some?
              && (assets[id].missing || assets[id].path !in look.present)
  {
  }

  /** Nothing collected means that there is no candidate. */
  lemma CollectedAll(db: Database, c: Candidates, look: Look, root: nat, item: Scanned)
    requires Sound(db) && Collects(c, db.assets, look, root, item, db.nextId)
    ensures c == [] <==> !AnyCandidate(db.assets, look, root, item)
    ensures forall id: nat, hash: Hash ::
              (id, hash) in c <==> Candidate(db.assets, look, root, item, id) && db.assets[id].hash == Some(hash)
  {
    if c != [] {
      assert Candidate(db.assets, look, root, item, c[0].0);
    }
  }

  /** The only entry with the hash, if there is exactly one. */
  method UniqueMatch(c: Candidates, hash: Hash) returns (found: Option<nat>)
    requires forall i, j :: 0 <= i < j < |c| ==> c[i].0 < c[j].0
    ensures found.Some? ==> (found.value, hash) in c && forall id :: (id, hash) in c ==> id == found.value
    ensures found.None? ==> forall id :: (id, hash) in c ==> exists other :: other != id && (other, hash) in c
  {
    found := None;
    for j := 0 to |c|
      invariant found.Some? ==> (found.value, hash) in c[..j] && forall id :: (id, hash) in c[..j] ==> id == found.value
      invariant found.None? ==> forall id :: (id, hash) !in c[..j]
    {
      if c[j].1 == hash {
        if found.Some? {
          assert (found.value, hash) in c && (c[j].0, hash) in c && found.value != c[j].0;
          return None;
        }
        found := Some(c[j].0);
      }
      assert c[..j + 1] == c[..j] + [c[j]];
    }
    assert c[..|c|] == c;
  }

  /** What the loop over the candidates finds is the row the file was moved from. */
  lemma MatchIsMove(db: Database, c: Candidates, look: Look, tools: Tools, root: nat, item: Scanned,
                    found: Option<nat>)
    requires ContentOf(look.hashed, item.path).Some? && AnyCandidate(db.assets, look, root, item)
    requires forall id: nat, hash: Hash ::
               (id, hash) in c <==> Candidate(db.assets, look, root, item, id) && db.assets[id].hash == Some(hash)
    requires var hash := tools.sha(ContentOf(look.hashed, item.path).value);
             && (found.Some? ==> (found.value, hash) in c && forall id :: (id, hash) in c ==> id == found.value)
             && (found.None? ==> forall id :: (id, hash) in c ==> exists other :: other != id && (other, hash) in c)
    ensures found.Some? ==> MovedFrom(db.assets, look, tools, root, item, found.value)
    ensures found.None? ==> forall id: nat :: !MovedFrom(db.assets, look, tools, root, item, id)
  {
    var hash := tools.sha(ContentOf(look.hashed, item.path).value);
    hide Candidate;
    assert forall id: nat :: Matches(db.assets, look, root, item, Some(hash), id) <==> (id, hash) in c;
    if found.None? {
      forall id: nat
        ensures !MovedFrom(db.assets, look, tools, root, item, id)
      {
        if (id, hash) in c {
          var other :| other != id && (other, hash) in c;
          assert Matches(db.assets, look, root, item, Some(hash), other);
        }
      }
    }
  }

  lemma NothingScanned(db: Database, course: Course, tools: Tools, root: nat, generation: nat, s: Stats)
    ensures IndexAll(db, course, tools, root, generation, [], s) == (db, s)
  {
  }

  function MarkedBelow(assets: map<nat, Asset>, root: nat, generation: nat, bound: nat): map<nat, Asset> {
    map id | id in assets ::
      if id < bound && Vanished(assets[id], root, generation) then assets[id].(missing := true) else assets[id]
  }

  function VanishedBelow(assets: map<nat, Asset>, root: nat, generation: nat, bound: nat): set<nat> {
    set id | id in assets && id < bound && Vanished(assets[id], root, generation)
  }

  lemma BelowGrows(assets: map<nat, Asset>, root: nat, generation: nat, id: nat)
    ensures var vanishes := id in assets && Vanished(assets[id], root, generation);
            && MarkedBelow(assets, root, generation, id + 1)
               == (if vanishes then MarkedBelow(assets, root, generation, id)[id := assets[id].(missing := true)]
                   else MarkedBelow(assets, root, generation, id))
            && |VanishedBelow(assets, root, generation, id + 1)|
               == |VanishedBelow(assets, root, generation, id)| + (if vanishes then 1 else 0)
  {
    if id in assets && Vanished(assets[id], root, generation) {
      assert VanishedBelow(assets, root, generation, id + 1) == VanishedBelow(assets, root, generation, id) + {id};
    } else {
      assert VanishedBelow(assets, root, generation, id + 1) == VanishedBelow(assets, root, generation, id);
    }
  }

  class LibraryDatabase {
    const tools: Tools
    var roots: map<nat, Root>
    var assets: map<nat, Asset>
    var nextId: nat

    ghost function View(): Database
      reads this
    {
      Database(roots, assets, nextId)
    }

    ghost predicate Valid()
      reads this
    {
      Sound(View())
    }

    constructor (tools: Tools)
      ensures Valid() && View() == Database(map[], map[], 1) && this.tools == tools
    {
      this.tools := tools;
      roots, assets, nextId := map[], map[], 1;
    }

    /** The row of a relative path, by the unique index. */
    method Existing(root: nat, relativePath: string) returns (found: Option<nat>)
      requires Valid()
      ensures found.Some? <==> Indexed(assets, root, relativePath)
      ensures found.Some? ==> found.value == Lookup(assets, root, relativePath)
    {
      for id := 0 to nextId
        invariant forall i :: 0 <= i < id ==> !At(assets, i, root, relativePath)
      {
        if id in assets && assets[id].rootId == root && assets[id].relativePath == relativePath {
          assert At(assets, id, root, relativePath);
          assert At(assets, Lookup(assets, root, relativePath), root, relativePath);
          return Some(id);
        }
      }
      return None;
    }

    method MoveCandidates(look: Look, root: nat, item: Scanned) returns (c: Candidates)
      requires Valid()
      ensures Collects(c, assets, look, root, item, nextId)
    {
      hide Candidate, Collects;
      CollectsNone(assets, look, root, item);
      c := [];
      for id := 0 to nextId
        invariant Collects(c, assets, look, root, item, id)
      {
        CollectNext(c, assets, look, root, item, id);
        CandidateIs(assets, look, root, item, id);
        if id in assets {
          var a := assets[id];
          if a.rootId == root && a.relativePath != item.relativePath && a.kind == item.kind && a.size == item.size
             && a.hash.Some? {
            var stillPresent := a.path in look.present;
            if a.missing || !stillPresent {
              c := c + [(id, a.hash.value)];
            }
          }
        }
      }
    }

    /** For a path that is not indexed yet: the hash, if it was worth computing, and the row
        the file was moved from, if that is certain. */
    method FindMove(look: Look, root: nat, item: Scanned) returns (hash: Option<Hash>, moved: Option<nat>, failed: bool)
      requires Valid() && !Indexed(assets, root, item.relativePath)
      ensures hash == Calculated(assets, look, tools, root, item) && failed == HashFails(assets, look, root, item)
      ensures moved.Some? ==> MovedFrom(assets, look, tools, root, item, moved.value)
      ensures moved.None? ==> forall id :: !MovedFrom(assets, look, tools, root, item, id)
    {
      hide Candidate, Sound;
      hash, moved, failed := None, None, false;
      var candidates := MoveCandidates(look, root, item);
      CollectedAll(View(), candidates, look, root, item);
      if candidates != [] {
        var content := ContentOf(look.hashed, item.path);
        if content.Some? {
          hash := Some(tools.sha(content.value));
          moved := UniqueMatch(candidates, hash.value);
          MatchIsMove(View(), candidates, look, tools, root, item, moved);
        } else {
          failed := true;
        }
      }
    }

    /** The body of the refresh loop. */
    method IndexAsset(look: Look, root: nat, generation: nat, item: Scanned, stats: Stats) returns (after: Stats)
      requires Valid() && root in roots && roots[root].generation == generation && TicksOf(look.stamped, item.path).Some?
      modifies this`assets, this`nextId
      ensures Valid() && (View(), after) == IndexOne(old(View()), look, tools, root, generation, item, stats)
    {
      hide Candidate, Collects, Sound, Shows;
      OneRowIsWritten(View(), look, tools, root, generation, item, stats);
      var ticks := TicksOf(look.stamped, item.path).value;
      var existing := Existing(root, item.relativePath);
      if existing.Some? && Unchanged(assets[existing.value], item, ticks) {
        assets := assets[existing.value := assets[existing.value].(path := item.path, seen := generation, missing := false)];
        return stats.(unmodified := stats.unmodified + 1);
      }
      var hash: Option<Hash>, moved: Option<nat>, failed := None, None, false;
      if existing.None? {
        hash, moved, failed := FindMove(look, root, item);
      }
      after := stats;
      if failed { after := after.(hashIssues := after.hashIssues + 1); }
      var parsed := ParsedOf(look, tools, item);
      if parsed.ParseError? { after := after.(parseErrors := after.parseErrors + 1); }
      if moved.Some? {
        assets := assets[moved.value := Described(assets[moved.value], item, ticks, generation, parsed)];
        after := after.(moved := after.moved + 1);
        return;
      }
      if existing.Some? {
        assets := assets[existing.value := Described(assets[existing.value], item, ticks, generation, parsed).(hash := hash)];
        after := after.(updated := after.updated + 1);
      } else {
        assets := assets[nextId := NewRow(root, item, ticks, generation, parsed, hash)];
        nextId := nextId + 1;
        after := after.(inserted := after.inserted + 1);
      }
    }

    /** Rows of the root that this scan has not seen. */
    method MarkMissing(root: nat, generation: nat) returns (changed: nat)
      requires Valid()
      modifies this`assets
      ensures assets == Marked(old(assets), root, generation)
      ensures changed == |VanishedIds(old(assets), root, generation)|
    {
      ghost var before := assets;
      changed := 0;
      for id := 0 to nextId
        invariant assets == MarkedBelow(before, root, generation, id)
        invariant changed == |VanishedBelow(before, root, generation, id)|
      {
        BelowGrows(before, root, generation, id);
        if id in assets && assets[id].rootId == root && assets[id].seen != generation && !assets[id].missing {
          assets := assets[id := assets[id].(missing := true)];
          changed := changed + 1;
        }
      }
      assert MarkedBelow(before, root, generation, nextId) == Marked(before, root, generation);
      assert VanishedBelow(before, root, generation, nextId) == VanishedIds(before, root, generation);
    }

    /** One transaction: a refresh that fails restores the tables. */
    method RefreshRoot(course: Course, root: nat, available: bool, items: seq<Scanned>) returns (outcome: Outcome)
      requires Valid()
      modifies this
      ensures Valid()
      ensures (View(), outcome) == Refresh(old(View()), course, tools, root, available, items)
    {
      if root !in roots || !roots[root].enabled {
        return UnknownRoot;
      }
      if !available {
        return RootUnavailable;
      }
      hide Sound, ScannedInto, Marked, VanishedIds;
      var savedRoots, savedAssets, savedNextId := roots, assets, nextId;
      var complete, stats := RefreshTables(course, root, items);
      if !complete {
        roots, assets, nextId := savedRoots, savedAssets, savedNextId;
        return TicksUnreadable;
      }
      return Refreshed(stats);
    }

    /** The statements of the transaction. */
    method RefreshTables(course: Course, root: nat, items: seq<Scanned>) returns (complete: bool, stats: Stats)
      requires Valid() && root in roots && roots[root].enabled
      modifies this
      ensures complete == Stamped(course, items)
      ensures complete ==> Valid() && (View(), Refreshed(stats)) == Refresh(old(View()), course, tools, root, true, items)
    {
      hide Sound, Marked, VanishedIds, IndexAll;
      ghost var before := View();
      RefreshLosesNothing(before, course, tools, root, true, items);
      BeginIsSound(before, root);
      var generation := roots[root].generation + 1;
      roots := roots[root := roots[root].(generation := generation)];
      complete, stats := IndexAssets(course, root, generation, items);
      if complete {
        var missing := MarkMissing(root, generation);
        stats := stats.(newlyMissing := missing);
      }
    }

    /** The refresh loop; it stops at the first file whose time is unreadable. */
    method IndexAssets(course: Course, root: nat, generation: nat, items: seq<Scanned>) returns (complete: bool, stats: Stats)
      requires Valid() && root in roots && roots[root].generation == generation
      modifies this`assets, this`nextId
      ensures Valid() && complete == Stamped(course, items)
      ensures complete ==>
                (View(), stats) == IndexAll(old(View()), course, tools, root, generation, items, Stats(|items|, 0, 0, 0, 0, 0, 0, 0))
    {
      hide Sound, IndexOne, IndexAll;
      ghost var before := View();
      stats := Stats(|items|, 0, 0, 0, 0, 0, 0, 0);
      ghost var start := stats;
      NothingScanned(before, course, tools, root, generation, start);
      for k := 0 to |items|
        invariant Valid() && roots == before.roots && Stamped(course, items[..k])
        invariant (View(), stats) == IndexAll(before, course, tools, root, generation, items[..k], start)
      {
        if TicksOf(course(k).stamped, items[k].path).None? {
          return false, stats;
        }
        assert items[..k + 1] == items[..k] + [items[k]];
        stats := IndexAsset(course(k), root, generation, items[k], stats);
        ScanOneMore(before, course, tools, root, generation, items[..k], items[k], start);
      }
      assert items[..|items|] == items;
      complete := true;
    }

    /** The hash of an indexed file, computed at most once for one recorded size and time. */
    method EnsureSha256(id: nat, before: FileSystem, during: FileSystem, later: FileSystem) returns (outcome: HashOutcome)
      requires Valid()
      modifies this`assets
      ensures Valid()
      ensures (View(), outcome) == Ensured(old(View()), tools, id, before, during, later)
    {
      if id !in assets {
        return UnknownAsset;
      }
      var current := assets[id];
      if current.missing {
        return MissingAsset;
      }
      if current.path !in before || before[current.path].ticks.None? {
        return Unavailable;
      }
      var actualSize, actualModified := before[current.path].size, before[current.path].ticks.value;
      if actualSize != current.size || actualModified != current.ticks {
        return StaleAsset;
      }
      if current.hash.Some? {
        return Hashed(current.hash.value);
      }
      if current.path !in during || during[current.path].content.None? {
        return HashUnreadable;
      }
      var hash := tools.sha(during[current.path].content.value);
      if current.path !in later || later[current.path].size != actualSize || later[current.path].ticks != Some(actualModified) {
        return ChangedWhileHashing;
      }
      UniqueAfter(assets, id, current.(hash := Some(hash)));
      assets := assets[id := current.(hash := Some(hash))];
      hide Unique;
      return Hashed(hash);
    }
  }
}
