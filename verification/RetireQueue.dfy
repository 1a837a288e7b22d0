/** The retirement queue as a transition system: one producer and one consumer, each index
    load, cell access and index store a step of its own. */
module RetireQueue {
  import opened Options

  const CAPACITY: nat := 16

  /** One cell stays unused so that full and empty differ. */
  const CELLS: nat := 17

  type NodeId = nat

  /** Where the producer stands inside `push`, with its local variables. */
  datatype Producer =
    | PushIdle
    | PushLoaded(node: NodeId, write: nat)    // has loaded write_index_
    | PushHasRoom(node: NodeId, write: nat)   // has seen next != read_index_
    | PushWritten(node: NodeId, write: nat)   // has stored the cell
    | PushSucceeded(node: NodeId)
    | PushFailed(node: NodeId)

  /** Where the consumer stands inside `pop`, with its local variables. */
  datatype Consumer =
    | PopIdle
    | PopLoaded(read: nat)                    // has loaded read_index_
    | PopNonEmpty(read: nat)                  // has seen read != write_index_
    | PopTaken(read: nat, node: NodeId)       // has loaded the cell
    | PopCleared(read: nat, node: NodeId)     // has nulled the cell
    | PopGot(node: NodeId)
    | PopEmpty

  datatype Ring = Ring(entries: seq<Option<NodeId>>, writeIndex: nat, readIndex: nat,
                       producer: Producer, consumer: Consumer)

  /** The index after `index`, wrapping at the end of the array. */
  function Next(index: nat): nat { (index + 1) % CELLS }

  function Empty(): Ring {
    Ring(seq(CELLS, _ => None), 0, 0, PushIdle, PopIdle)
  }

  // ---- steps -----------------------------------------------------------------------

  predicate Pushing(p: Producer) { p.PushLoaded? || p.PushHasRoom? || p.PushWritten? }

  predicate Popping(c: Consumer) { c.PopLoaded? || c.PopNonEmpty? || c.PopTaken? || c.PopCleared? }

  function BeginPush(q: Ring, node: NodeId): Ring
    requires q.producer.PushIdle?
  {
    q.(producer := PushLoaded(node, q.writeIndex))
  }

  /** The next shared-memory access of `push`. */
  function PushStep(q: Ring): Ring
    requires WellFormed(q) && Pushing(q.producer)
  {
    match q.producer
    case PushLoaded(node, write) =>
      q.(producer := if Next(write) == q.readIndex then PushFailed(node) else PushHasRoom(node, write))
    case PushHasRoom(node, write) =>
      q.(entries := q.entries[write := Some(node)], producer := PushWritten(node, write))
    case PushWritten(node, write) =>
      q.(writeIndex := Next(write), producer := PushSucceeded(node))
  }

  function EndPush(q: Ring): Ring
    requires q.producer.PushSucceeded? || q.producer.PushFailed?
  {
    q.(producer := PushIdle)
  }

  function BeginPop(q: Ring): Ring
    requires q.consumer.PopIdle?
  {
    q.(consumer := PopLoaded(q.readIndex))
  }

  /** The next shared-memory access of `pop`. */
  function PopStep(q: Ring): Ring
    requires WellFormed(q) && Popping(q.consumer)
  {
    match q.consumer
    case PopLoaded(read) =>
      q.(consumer := if read == q.writeIndex then PopEmpty else PopNonEmpty(read))
    case PopNonEmpty(read) =>
      assert CellIsRight(q, 0, q.entries[Cell(q, 0)]);
      q.(consumer := PopTaken(read, q.entries[read].value))
    case PopTaken(read, node) =>
      q.(entries := q.entries[read := None], consumer := PopCleared(read, node))
    case PopCleared(read, node) =>
      q.(readIndex := Next(read), consumer := PopGot(node))
  }

  function EndPop(q: Ring): Ring
    requires q.consumer.PopGot? || q.consumer.PopEmpty?
  {
    q.(consumer := PopIdle)
  }

  // ---- what the ring represents ----------------------------------------------------

  /** Number of cells from the read index to the write index. */
  function Length(q: Ring): int {
    if q.readIndex <= q.writeIndex then q.writeIndex - q.readIndex else q.writeIndex - q.readIndex + CELLS
  }

  /** The cell of queue position `i`. */
  function Cell(q: Ring, i: nat): int {
    if q.readIndex + i < CELLS then q.readIndex + i else q.readIndex + i - CELLS
  }

  /** The node at queue position `i`; the consumer may be holding the first. */
  function Item(q: Ring, i: nat): Option<NodeId>
    requires |q.entries| == CELLS && 0 <= Cell(q, i) < CELLS
  {
    if i == 0 && q.consumer.PopCleared? then Some(q.consumer.node) else q.entries[Cell(q, i)]
  }

  /** Local variables agree with the shared indices, live cells are occupied and all other
      cells are null, except the one the producer has just written. */
  predicate WellFormed(q: Ring) {
    && |q.entries| == CELLS && q.writeIndex < CELLS && q.readIndex < CELLS && 0 <= Length(q) <= CAPACITY
    && (q.producer.PushLoaded? || q.producer.PushHasRoom? || q.producer.PushWritten? ==>
          q.producer.write == q.writeIndex)
    && (q.producer.PushHasRoom? || q.producer.PushWritten? ==> Length(q) < CAPACITY)
    && (Popping(q.consumer) ==> q.consumer.read == q.readIndex)
    && (q.consumer.PopNonEmpty? || q.consumer.PopTaken? || q.consumer.PopCleared? ==> Length(q) > 0)
    && (q.consumer.PopTaken? ==> q.entries[q.readIndex] == Some(q.consumer.node))
    && (forall i {:trigger Cell(q, i)} :: 0 <= i < CELLS ==>
          0 <= Cell(q, i) < CELLS && CellIsRight(q, i, q.entries[Cell(q, i)]))
  }

  predicate CellIsRight(q: Ring, i: nat, entry: Option<NodeId>) {
    if i < Length(q) && !(i == 0 && q.consumer.PopCleared?) then entry.Some?
    else if i == Length(q) && q.producer.PushWritten? then entry == Some(q.producer.node)
    else entry == None
  }

  /** The queue the ring stands for, oldest first. */
  function Contents(q: Ring): (s: seq<NodeId>)
    requires WellFormed(q)
    ensures |s| == Length(q)
  {
    seq(Length(q), i requires 0 <= i < Length(q) => ItemAt(q, i))
  }

  function ItemAt(q: Ring, i: nat): NodeId
    requires WellFormed(q) && i < Length(q) <= CAPACITY
  {
    assert CellIsRight(q, i, q.entries[Cell(q, i)]);
    Item(q, i).value
  }

  // ---- refinement of a queue of capacity 16 ----------------------------------------

  /** The five shared-memory accesses and the call boundaries of either side. */
  datatype Action = DoBeginPush(node: NodeId) | DoPushStep | DoEndPush | DoBeginPop | DoPopStep | DoEndPop

  predicate Enabled(q: Ring, a: Action) {
    match a
    case DoBeginPush(_) => q.producer.PushIdle?
    case DoPushStep => Pushing(q.producer)
    case DoEndPush => q.producer.PushSucceeded? || q.producer.PushFailed?
    case DoBeginPop => q.consumer.PopIdle?
    case DoPopStep => Popping(q.consumer)
    case DoEndPop => q.consumer.PopGot? || q.consumer.PopEmpty?
  }

  function Apply(q: Ring, a: Action): Ring
    requires WellFormed(q) && Enabled(q, a)
  {
    match a
    case DoBeginPush(node) => BeginPush(q, node)
    case DoPushStep => PushStep(q)
    case DoEndPush => EndPush(q)
    case DoBeginPop => BeginPop(q)
    case DoPopStep => PopStep(q)
    case DoEndPop => EndPop(q)
  }

  /** The queue after an action: the write-index store appends, the read-index store takes
      the oldest, and nothing else is visible. */
  function QueueAfter(q: Ring, a: Action): seq<NodeId>
    requires WellFormed(q)
  {
    if a.DoPushStep? && q.producer.PushWritten? then Contents(q) + [q.producer.node]
    else if a.DoPopStep? && q.consumer.PopCleared? && Contents(q) != [] then Contents(q)[1..]
    else Contents(q)
  }

  lemma NextCell(q: Ring)
    requires WellFormed(q)
    ensures Next(q.writeIndex) == if q.writeIndex + 1 < CELLS then q.writeIndex + 1 else 0
    ensures Next(q.readIndex) == if q.readIndex + 1 < CELLS then q.readIndex + 1 else 0
    ensures Cell(q, Length(q)) == q.writeIndex && Cell(q, 0) == q.readIndex
    ensures Length(q) < CAPACITY ==> Next(q.writeIndex) != q.readIndex
    ensures Next(q.writeIndex) == q.readIndex <==> Length(q) == CAPACITY
    ensures q.writeIndex == q.readIndex <==> Length(q) == 0
  {
  }

  /** Cells of different queue positions are different. */
  lemma CellsDiffer(q: Ring, i: nat, j: nat)
    requires i < CELLS && j < CELLS && i != j
    ensures Cell(q, i) != Cell(q, j)
  {
  }

  predicate Commits(q: Ring, a: Action) { a.DoPushStep? && q.producer.PushWritten? }

  predicate Releases(q: Ring, a: Action) { a.DoPopStep? && q.consumer.PopCleared? }

  /** How an action moves the live range: cell `i` afterwards is cell `Shifted` before. */
  function Shifted(q: Ring, a: Action, i: nat): nat {
    if !Releases(q, a) then i else if i + 1 < CELLS then i + 1 else 0
  }

  lemma RangeAfter(q: Ring, a: Action)
    requires WellFormed(q) && Enabled(q, a)
    ensures var q' := Apply(q, a);
            && q'.writeIndex < CELLS && q'.readIndex < CELLS && |q'.entries| == CELLS
            && Length(q') == Length(q) + (if Commits(q, a) then 1 else 0) - (if Releases(q, a) then 1 else 0)
            && Length(q') <= CAPACITY
            && forall i {:trigger Cell(q', i)} :: 0 <= i < CELLS ==> Cell(q', i) == Cell(q, Shifted(q, a, i))
  {
    NextCell(q);
  }

  lemma StepIsWellFormed(q: Ring, a: Action)
    requires WellFormed(q) && Enabled(q, a)
    ensures WellFormed(Apply(q, a))
  {
    var q' := Apply(q, a);
    NextCell(q);
    RangeAfter(q, a);
    forall i {:trigger Cell(q', i)} | 0 <= i < CELLS
      ensures CellIsRight(q', i, q'.entries[Cell(q', i)])
    {
      var j := Shifted(q, a, i);
      assert CellIsRight(q, j, q.entries[Cell(q, j)]);
      if j != Length(q) { CellsDiffer(q, j, Length(q)); }
      if j != 0 { CellsDiffer(q, j, 0); }
    }
  }

  /** Every action acts on the represented queue as `QueueAfter` says. */
  lemma StepRefinesQueue(q: Ring, a: Action)
    requires WellFormed(q) && Enabled(q, a)
    ensures WellFormed(Apply(q, a))
    ensures Contents(Apply(q, a)) == QueueAfter(q, a)
  {
    StepIsWellFormed(q, a);
    var q' := Apply(q, a);
    NextCell(q);
    RangeAfter(q, a);
    forall i | 0 <= i < Length(q')
      ensures Contents(q')[i] == QueueAfter(q, a)[i]
    {
      var j := Shifted(q, a, i);
      assert CellIsRight(q, j, q.entries[Cell(q, j)]);
      if j != Length(q) { CellsDiffer(q, j, Length(q)); }
      if j != 0 { CellsDiffer(q, j, 0); }
    }
  }

  /** How often a node is queued, before and after an action. */
  lemma StepCountsNode(q: Ring, a: Action, n: NodeId)
    requires WellFormed(q) && Enabled(q, a)
    ensures WellFormed(Apply(q, a))
    ensures multiset(Contents(Apply(q, a)))[n] + (if Releases(q, a) && q.consumer.node == n then 1 else 0)
            == multiset(Contents(q))[n] + (if Commits(q, a) && q.producer.node == n then 1 else 0)
  {
    StepRefinesQueue(q, a);
    OutcomesAreRight(q, a);
    hide WellFormed;
    if Releases(q, a) {
      assert Contents(q) == [q.consumer.node] + Contents(q)[1..];
    }
  }

  /** A push gives up only on a full queue, a pop only on an empty one, and what a pop hands
      out is the oldest node. */
  lemma OutcomesAreRight(q: Ring, a: Action)
    requires WellFormed(q) && Enabled(q, a)
    ensures var q' := Apply(q, a);
            && (q'.producer.PushFailed? && !q.producer.PushFailed? ==> |Contents(q)| == CAPACITY)
            && (q'.producer.PushSucceeded? && !q.producer.PushSucceeded? ==> |Contents(q)| < CAPACITY)
            && (q'.consumer.PopEmpty? && !q.consumer.PopEmpty? ==> Contents(q) == [])
            && (q'.consumer.PopGot? && !q.consumer.PopGot? ==>
                  Contents(q) != [] && q'.consumer.node == Contents(q)[0])
  {
    NextCell(q);
  }

  /** The two sides never have the same cell to themselves. */
  lemma CellsAreExclusive(q: Ring)
    requires WellFormed(q)
    requires q.producer.PushHasRoom? || q.producer.PushWritten?
    requires q.consumer.PopNonEmpty? || q.consumer.PopTaken? || q.consumer.PopCleared?
    ensures q.producer.write != q.consumer.read
  {
    NextCell(q);
  }

  // ---- whole runs ------------------------------------------------------------------

  /** A ring together with every node ever appended and every node ever handed out. */
  datatype Traced = Traced(ring: Ring, appended: seq<NodeId>, taken: seq<NodeId>)

  function Trace(t: Traced, a: Action): Traced
    requires WellFormed(t.ring) && Enabled(t.ring, a)
  {
    Traced(Apply(t.ring, a),
           if a.DoPushStep? && t.ring.producer.PushWritten? then t.appended + [t.ring.producer.node] else t.appended,
           if a.DoPopStep? && t.ring.consumer.PopCleared? then t.taken + [t.ring.consumer.node] else t.taken)
  }

  ghost predicate Runs(t: Traced, actions: seq<Action>, t': Traced)
    decreases |actions|
  {
    if actions == [] then t == t'
    else
      && WellFormed(t.ring) && Enabled(t.ring, actions[0])
      && Runs(Trace(t, actions[0]), actions[1..], t')
  }

  lemma TraceKeepsOrder(t: Traced, a: Action)
    requires WellFormed(t.ring) && Enabled(t.ring, a)
    requires t.appended == t.taken + Contents(t.ring)
    ensures var t' := Trace(t, a);
            WellFormed(t'.ring) && t'.appended == t'.taken + Contents(t'.ring)
  {
    StepRefinesQueue(t.ring, a);
    OutcomesAreRight(t.ring, a);
    hide WellFormed, Contents;
    if a.DoPopStep? && t.ring.consumer.PopCleared? {
      assert Contents(t.ring) == [t.ring.consumer.node] + Contents(t.ring)[1..];
    }
  }

  /** First in, first out, over every interleaving: what was appended is what was taken
      followed by what is still queued, so nothing is lost, duplicated or reordered. */
  lemma {:induction false} NothingLostOrReordered(t: Traced, actions: seq<Action>, t': Traced)
    requires WellFormed(t.ring) && t.appended == t.taken + Contents(t.ring)
    requires Runs(t, actions, t')
    ensures WellFormed(t'.ring) && t'.appended == t'.taken + Contents(t'.ring)
    decreases |actions|
  {
    if actions != [] {
      TraceKeepsOrder(t, actions[0]);
      NothingLostOrReordered(Trace(t, actions[0]), actions[1..], t');
    }
  }

  lemma EmptyIsWellFormed()
    ensures WellFormed(Empty()) && Contents(Empty()) == []
  {
  }
}
