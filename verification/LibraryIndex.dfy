/** The asset table as maps, and one refresh of a root as a function of the table, the file
    system and the scan. */
module LibraryIndex {
  import opened Options
  import opened Bytes

  type Content = seq<Byte>

  type Hash = string

  datatype Kind = NamModel | ImpulseResponse

  datatype Parsed = NotApplicable | Metadata(text: string) | ParseError

  /** A regular file. Its time stamp or its bytes may be unreadable. */
  datatype File = File(size: nat, ticks: Option<int>, content: Option<Content>)

  /** The regular files by path. */
  type FileSystem = map<string, File>

  /** What the program computes from bytes: the digest and the metadata. */
  datatype Tools = Tools(sha: Content -> Hash, parse: Content -> Parsed)

  /** What only the user changes. */
  datatype UserData = UserData(favorite: bool, rating: Option<nat>, tags: seq<string>, lastUsed: Option<int>)

  datatype Asset = Asset(rootId: nat, path: string, relativePath: string, kind: Kind, size: nat, ticks: int,
                         hash: Option<Hash>, seen: nat, missing: bool, parsed: Parsed, user: UserData)

  datatype Root = Root(path: string, enabled: bool, generation: nat)

  datatype Database = Database(roots: map<nat, Root>, assets: map<nat, Asset>, nextId: nat)

  /** The disk while one scanned file is processed: when its time is read, which move
      candidates are found to be still there, when its bytes are hashed, and when its
      metadata is read. */
  datatype Look = Look(stamped: FileSystem, present: set<string>, hashed: FileSystem, parsed: FileSystem)

  /** The disk during a refresh: what is found when the scanned file of an index is processed. */
  type Course = nat -> Look

  /** A disk that does not change. */
  function Still(fs: FileSystem): Course { _ => Look(fs, fs.Keys, fs, fs) }

  /** One entry of the scan report. */
  datatype Scanned = Scanned(path: string, relativePath: string, kind: Kind, size: nat)

  datatype Stats = Stats(discovered: nat, inserted: nat, updated: nat, moved: nat, unmodified: nat,
                         parseErrors: nat, hashIssues: nat, newlyMissing: nat)

  const NEW_USER_DATA: UserData := UserData(false, None, [], None)

  // ---- reading ---------------------------------------------------------------------

  function TicksOf(fs: FileSystem, path: string): Option<int> {
    if path in fs then fs[path].ticks else None
  }

  function ContentOf(fs: FileSystem, path: string): Option<Content> {
    if path in fs then fs[path].content else None
  }

  function ParsedOf(look: Look, tools: Tools, item: Scanned): Parsed {
    if item.kind != NamModel then NotApplicable
    else if ContentOf(look.parsed, item.path).None? then ParseError
    else tools.parse(ContentOf(look.parsed, item.path).value)
  }

  predicate At(assets: map<nat, Asset>, id: nat, root: nat, relativePath: string) {
    id in assets && assets[id].rootId == root && assets[id].relativePath == relativePath
  }

  ghost predicate Indexed(assets: map<nat, Asset>, root: nat, relativePath: string) {
    exists id :: At(assets, id, root, relativePath)
  }

  ghost function Lookup(assets: map<nat, Asset>, root: nat, relativePath: string): (id: nat)
    requires Indexed(assets, root, relativePath)
    ensures At(assets, id, root, relativePath)
  {
    var id :| At(assets, id, root, relativePath);
    id
  }

  /** The table's constraints: ids below the next one, relative paths unique within a root,
      and no row seen by a scan that has not happened. */
  ghost predicate Sound(db: Database) {
    && (forall id :: id in db.assets ==>
          && id < db.nextId && db.assets[id].rootId in db.roots
          && db.assets[id].seen <= db.roots[db.assets[id].rootId].generation)
    && Unique(db.assets)
  }

  ghost predicate Unique(assets: map<nat, Asset>) {
    forall i, j :: i in assets && At(assets, j, assets[i].rootId, assets[i].relativePath) ==> i == j
  }

  // ---- deciding about one scanned file ---------------------------------------------

  /** A row that the file at `item` may have been moved from. */
  predicate Candidate(assets: map<nat, Asset>, look: Look, root: nat, item: Scanned, id: nat) {
    && id in assets
    && var a := assets[id];
       && a.rootId == root && a.relativePath != item.relativePath && a.kind == item.kind && a.size == item.size
       && a.hash.Some? && (a.missing || a.path !in look.present)
  }

  ghost predicate AnyCandidate(assets: map<nat, Asset>, look: Look, root: nat, item: Scanned) {
    exists id :: Candidate(assets, look, root, item, id)
  }

  /** The hash is computed only when there is something to compare it with. */
  ghost function Calculated(assets: map<nat, Asset>, look: Look, tools: Tools, root: nat, item: Scanned): Option<Hash> {
    if AnyCandidate(assets, look, root, item) && ContentOf(look.hashed, item.path).Some?
    then Some(tools.sha(ContentOf(look.hashed, item.path).value)) else None
  }

  predicate Matches(assets: map<nat, Asset>, look: Look, root: nat, item: Scanned, hash: Option<Hash>, id: nat) {
    hash.Some? && Candidate(assets, look, root, item, id) && assets[id].hash == hash
  }

  /** Exactly one candidate has the hash of the new file. */
  ghost predicate MovedFrom(assets: map<nat, Asset>, look: Look, tools: Tools, root: nat, item: Scanned, id: nat) {
    var hash := Calculated(assets, look, tools, root, item);
    && Matches(assets, look, root, item, hash, id)
    && forall other :: Matches(assets, look, root, item, hash, other) ==> other == id
  }

  predicate Unchanged(a: Asset, item: Scanned, ticks: int) {
    a.kind == item.kind && a.size == item.size && a.ticks == ticks && !a.missing
  }

  datatype Decision = Touch(id: nat) | Update(id: nat) | Recover(id: nat) | Insert

  ghost function Decide(assets: map<nat, Asset>, look: Look, tools: Tools, root: nat, item: Scanned, ticks: int)
      : (d: Decision)
    ensures !d.Insert? ==> d.id in assets && assets[d.id].rootId == root
  {
    if Indexed(assets, root, item.relativePath) then
      var id := Lookup(assets, root, item.relativePath);
      if Unchanged(assets[id], item, ticks) then Touch(id) else Update(id)
    else if exists id :: MovedFrom(assets, look, tools, root, item, id) then
      var id :| MovedFrom(assets, look, tools, root, item, id);
      Recover(id)
    else Insert
  }

  // ---- acting on it ----------------------------------------------------------------

  /** The columns a scan rewrites. */
  function Described(a: Asset, item: Scanned, ticks: int, generation: nat, parsed: Parsed): Asset {
    a.(path := item.path, relativePath := item.relativePath, kind := item.kind, size := item.size, ticks := ticks,
       seen := generation, missing := false, parsed := parsed)
  }

  function NewRow(root: nat, item: Scanned, ticks: int, generation: nat, parsed: Parsed, hash: Option<Hash>): Asset {
    Asset(root, item.path, item.relativePath, item.kind, item.size, ticks, hash, generation, false, parsed, NEW_USER_DATA)
  }

  /** The row that stands for the file after the decision, and its id. */
  function Row(db: Database, root: nat, generation: nat, item: Scanned, ticks: int, parsed: Parsed, hash: Option<Hash>,
               d: Decision): (nat, Asset)
    requires !d.Insert? ==> d.id in db.assets
  {
    match d
    case Touch(id) => (id, db.assets[id].(path := item.path, seen := generation, missing := false))
    case Update(id) => (id, Described(db.assets[id], item, ticks, generation, parsed).(hash := None))
    case Recover(id) => (id, Described(db.assets[id], item, ticks, generation, parsed))
    case Insert => (db.nextId, NewRow(root, item, ticks, generation, parsed, hash))
  }

  function Counted(s: Stats, d: Decision, parsed: Parsed, hashFailed: bool): Stats {
    var t := s.(parseErrors := s.parseErrors + if !d.Touch? && parsed.ParseError? then 1 else 0,
                hashIssues := s.hashIssues + if hashFailed then 1 else 0);
    match d
    case Touch(_) => t.(unmodified := t.unmodified + 1)
    case Update(_) => t.(updated := t.updated + 1)
    case Recover(_) => t.(moved := t.moved + 1)
    case Insert => t.(inserted := t.inserted + 1)
  }

  /** A move candidate exists but the new file cannot be hashed. */
  ghost predicate HashFails(assets: map<nat, Asset>, look: Look, root: nat, item: Scanned) {
    !Indexed(assets, root, item.relativePath) && AnyCandidate(assets, look, root, item) && ContentOf(look.hashed, item.path).None?
  }

  ghost function IndexOne(db: Database, look: Look, tools: Tools, root: nat, generation: nat, item: Scanned, s: Stats)
      : (Database, Stats)
    requires TicksOf(look.stamped, item.path).Some?
  {
    var ticks := TicksOf(look.stamped, item.path).value;
    var d := Decide(db.assets, look, tools, root, item, ticks);
    var parsed := ParsedOf(look, tools, item);
    var (id, row) := Row(db, root, generation, item, ticks, parsed, Calculated(db.assets, look, tools, root, item), d);
    (db.(assets := db.assets[id := row], nextId := if d.Insert? then db.nextId + 1 else db.nextId),
     Counted(s, d, parsed, HashFails(db.assets, look, root, item)))
  }

  predicate Stamped(course: Course, items: seq<Scanned>) {
    forall k :: 0 <= k < |items| ==> TicksOf(course(k).stamped, items[k].path).Some?
  }

  ghost function IndexAll(db: Database, course: Course, tools: Tools, root: nat, generation: nat, items: seq<Scanned>, s: Stats)
      : (Database, Stats)
    requires Stamped(course, items)
  {
    if items == [] then (db, s)
    else
      var (before, t) := IndexAll(db, course, tools, root, generation, items[..|items| - 1], s);
      IndexOne(before, course(|items| - 1), tools, root, generation, items[|items| - 1], t)
  }

  // ---- marking what was not seen ---------------------------------------------------

  predicate Vanished(a: Asset, root: nat, generation: nat) {
    a.rootId == root && a.seen != generation && !a.missing
  }

  function Marked(assets: map<nat, Asset>, root: nat, generation: nat): (r: map<nat, Asset>)
    ensures r.Keys == assets.Keys
  {
    map id | id in assets :: if Vanished(assets[id], root, generation) then assets[id].(missing := true) else assets[id]
  }

  function VanishedIds(assets: map<nat, Asset>, root: nat, generation: nat): set<nat> {
    set id | id in assets && Vanished(assets[id], root, generation)
  }

  // ---- the whole refresh -----------------------------------------------------------

  datatype Outcome = Refreshed(stats: Stats) | UnknownRoot | RootUnavailable | TicksUnreadable

  function Generation(db: Database, root: nat): nat
    requires root in db.roots
  {
    db.roots[root].generation + 1
  }

  function Begun(db: Database, root: nat): Database
    requires root in db.roots
  {
    db.(roots := db.roots[root := db.roots[root].(generation := Generation(db, root))])
  }

  /** The scan loop of a refresh that goes through. */
  ghost function ScannedInto(db: Database, course: Course, tools: Tools, root: nat, items: seq<Scanned>): (Database, Stats)
    requires root in db.roots && Stamped(course, items)
  {
    IndexAll(Begun(db, root), course, tools, root, Generation(db, root), items, Stats(|items|, 0, 0, 0, 0, 0, 0, 0))
  }

  /** A refresh that throws leaves the database as it was. */
  ghost function Refresh(db: Database, course: Course, tools: Tools, root: nat, available: bool, items: seq<Scanned>)
      : (Database, Outcome)
  {
    if root !in db.roots || !db.roots[root].enabled then (db, UnknownRoot)
    else if !available then (db, RootUnavailable)
    else if !Stamped(course, items) then (db, TicksUnreadable)
    else
      var (indexed, stats) := ScannedInto(db, course, tools, root, items);
      (indexed.(assets := Marked(indexed.assets, root, Generation(db, root))),
       Refreshed(stats.(newlyMissing := |VanishedIds(indexed.assets, root, Generation(db, root))|)))
  }

  // ---- hashing on demand -----------------------------------------------------------

  datatype HashOutcome =
    | Hashed(hash: Hash)
    | UnknownAsset | MissingAsset | Unavailable | StaleAsset | HashUnreadable | ChangedWhileHashing

  /** The file is there and still has the recorded size and time. */
  predicate StampMatches(fs: FileSystem, a: Asset) {
    a.path in fs && fs[a.path].size == a.size && fs[a.path].ticks == Some(a.ticks)
  }

  /** `ensure_sha256`. The file system is looked at three times: before hashing, while the
      bytes are read, and after. */
  function Ensured(db: Database, tools: Tools, id: nat, before: FileSystem, during: FileSystem, later: FileSystem)
      : (Database, HashOutcome)
  {
    if id !in db.assets then (db, UnknownAsset)
    else if db.assets[id].missing then (db, MissingAsset)
    else
      var a := db.assets[id];
      if TicksOf(before, a.path).None? then (db, Unavailable)
      else if !StampMatches(before, a) then (db, StaleAsset)
      else if a.hash.Some? then (db, Hashed(a.hash.value))
      else if ContentOf(during, a.path).None? then (db, HashUnreadable)
      else if !StampMatches(later, a) then (db, ChangedWhileHashing)
      else
        var hash := tools.sha(ContentOf(during, a.path).value);
        (db.(assets := db.assets[id := a.(hash := Some(hash))]), Hashed(hash))
  }
}
