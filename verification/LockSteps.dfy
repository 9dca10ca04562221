/** The routing table under concurrent calls, as a state machine whose steps lie between two lock
    operations. Any number of calls run at once and any of them may take the next step. A vector
    is read or written in one step while its lock is free; only a split keeps its lock over many
    steps, because it adds the moved nodes to the next bucket while it holds it. */
module LockSteps {
  import opened U160s
  import opened NodeInfos
  import opened Wrappers
  import opened Chains

  /** Where a call stands in one bucket. A call is a stack of frames: a split waits under the add
      it started, a lookup under the lookup of the next bucket. */
  datatype Frame =
    | AddStart(j: nat, n: NodeInfo)                       // is there a next bucket?
    | AddLen(j: nat, n: NodeInfo)                         // is there room?
    | AddCheck(j: nat, n: NodeInfo)                       // is there still no next bucket?
    | AddFull(j: nat, n: NodeInfo)                        // is the vector full?
    | AddMake(j: nat, n: NodeInfo)                        // set the next bucket
    | SplitWait(j: nat, n: NodeInfo)                      // take the write lock
    | SplitLoop(j: nat, n: NodeInfo, i: nat)              // partition, holding the lock
    | AddRoute(j: nat, n: NodeInfo)                       // here or in the next bucket?
    | AddStore(j: nat, n: NodeInfo)                       // bump or push
    | LookStart(j: nat, id: U160)
    | LookNear(j: nat, id: U160)                          // waits for the next bucket's answer
    | LookHere(j: nat, id: U160, acc: seq<NodeInfo>)
    | LookTail(j: nat, id: U160, acc: seq<NodeInfo>)
    | LookMore(j: nat, id: U160, acc: seq<NodeInfo>)      // waits for the next bucket's answer
    | Answer(found: seq<NodeInfo>)
    | RemoveStart(j: nat, id: U160)
    | RemoveHere(j: nat, id: U160)
    | Removed(ok: bool)
    | Panicked

  type Stack = seq<Frame>

  /** The shared part. Bucket `j` has a next bucket exactly when bucket `j + 1` exists: the cell
      is set once, from empty to a new bucket. */
  datatype Table = Table(own: U160, k: nat, buckets: seq<seq<NodeInfo>>, held: set<nat>) {
    predicate HasNext(j: nat) { j + 1 < |buckets| }

    predicate Belongs(j: nat, id: U160) { own.Distance(id).GetBit(j) }

    predicate Free(j: nat) { j < |buckets| && j !in held }

    function With(j: nat, nodes: seq<NodeInfo>): Table
      requires j < |buckets|
    {
      this.(buckets := buckets[j := nodes])
    }
  }

  /** What one step of a call makes of the table and of the call; `None` when it has to wait. */
  type Move = Option<(Table, Stack)>

  function Below(stack: Stack): Stack
    requires stack != []
  {
    stack[..|stack| - 1]
  }

  function Top(stack: Stack): Frame
    requires stack != []
  {
    stack[|stack| - 1]
  }

  predicate Holds(stack: Stack, j: nat) {
    exists d :: 0 <= d < |stack| && stack[d].SplitLoop? && stack[d].j == j
  }

  // ----- the steps of an add -----

  function AddMove(tb: Table, below: Stack, f: Frame): Move {
    match f
    case AddStart(j, n) =>
      Some((tb, below + [if tb.HasNext(j) then AddCheck(j, n) else AddLen(j, n)]))
    case AddLen(j, n) =>
      if !tb.Free(j) then None
      else Some((tb, below + [if |tb.buckets[j]| < tb.k then AddStore(j, n) else AddCheck(j, n)]))
    case AddCheck(j, n) =>
      Some((tb, below + [if tb.HasNext(j) then AddRoute(j, n) else AddFull(j, n)]))
    case AddFull(j, n) =>
      if !tb.Free(j) then None
      else Some((tb, below + [if |tb.buckets[j]| == tb.k then AddMake(j, n) else AddRoute(j, n)]))
    case AddRoute(j, n) =>
      if tb.Belongs(j, n.id) then Some((tb, below + [AddStore(j, n)]))
      else if tb.HasNext(j) then Some((tb, below + [AddStart(j + 1, n)]))
      // the unwrap of an empty cell: the call unwinds and its locks are released
      else Some((tb.(held := set h | h in tb.held && !Holds(below, h)), [Panicked]))
    case AddStore(j, n) =>
      if !tb.Free(j) then None
      else Some((tb.With(j, AddOrUpdate(tb.buckets[j], tb.k, n)), below))
    case _ => None
  }

  // ----- the steps of a split -----

  function SplitMove(tb: Table, below: Stack, f: Frame): Move {
    match f
    case AddMake(j, n) =>
      if j >= MAX_BUCKET_INDEX then Some((tb, below))
      else if tb.HasNext(j) then Some((tb, below + [AddRoute(j, n)]))
      else Some((tb.(buckets := tb.buckets + [[]]), below + [SplitWait(j, n)]))
    case SplitWait(j, n) =>
      if !tb.Free(j) then None
      else Some((tb.(held := tb.held + {j}), below + [SplitLoop(j, n, 0)]))
    case SplitLoop(j, n, i) =>
      if j >= |tb.buckets| then None
      else if i >= |tb.buckets[j]| then Some((tb.(held := tb.held - {j}), below + [AddRoute(j, n)]))
      else
        var x := tb.buckets[j][i];
        if tb.Belongs(j, x.id) then Some((tb, below + [SplitLoop(j, n, i + 1)]))
        else Some((tb.With(j, SwapRemove(tb.buckets[j], i)), below + [f, AddStart(j + 1, x)]))
    case _ => None
  }

  // ----- the steps of a lookup -----

  /** What the waiting lookup below does with an answer. */
  function Resume(k: nat, waiting: Frame, found: seq<NodeInfo>): Option<Frame> {
    match waiting
    case LookNear(j, id) => Some(LookHere(j, id, found))
    case LookMore(j, id, acc) => Some(Answer(acc + if |acc| < k then Take(found, k - |acc|) else []))
    case _ => None
  }

  function LookMove(tb: Table, below: Stack, f: Frame): Move {
    match f
    case LookStart(j, id) =>
      if tb.HasNext(j) && !tb.Belongs(j, id) then Some((tb, below + [LookNear(j, id), LookStart(j + 1, id)]))
      else Some((tb, below + [LookHere(j, id, [])]))
    case LookHere(j, id, acc) =>
      if |acc| >= tb.k then Some((tb, below + [LookTail(j, id, acc)]))
      else if !tb.Free(j) then None
      else Some((tb, below + [LookTail(j, id, acc + Take(tb.buckets[j], tb.k - |acc|))]))
    case LookTail(j, id, acc) =>
      if |acc| < tb.k && tb.HasNext(j) then Some((tb, below + [LookMore(j, id, acc), LookStart(j + 1, id)]))
      else Some((tb, below + [Answer(acc)]))
    case Answer(found) =>
      if below == [] then None
      else (match Resume(tb.k, Top(below), found)
            case Some(g) => Some((tb, Below(below) + [g]))
            case None => None)
    case _ => None
  }

  // ----- the steps of a removal -----

  function WithoutFirst(nodes: seq<NodeInfo>, id: U160): seq<NodeInfo> {
    var p := FindFirst(nodes, id);
    if p >= 0 then nodes[..p] + nodes[p + 1..] else nodes
  }

  function RemoveMove(tb: Table, below: Stack, f: Frame): Move {
    match f
    case RemoveStart(j, id) =>
      if !tb.HasNext(j) || tb.Belongs(j, id) then Some((tb, below + [RemoveHere(j, id)]))
      else Some((tb, below + [RemoveStart(j + 1, id)]))
    case RemoveHere(j, id) =>
      if !tb.Free(j) then None
      else Some((tb.With(j, WithoutFirst(tb.buckets[j], id)), below + [Removed(FindFirst(tb.buckets[j], id) >= 0)]))
    case _ => None
  }

  predicate IsAdd(f: Frame) {
    f.AddStart? || f.AddLen? || f.AddCheck? || f.AddFull? || f.AddRoute? || f.AddStore?
  }

  predicate IsSplit(f: Frame) { f.AddMake? || f.SplitWait? || f.SplitLoop? }

  predicate IsRemove(f: Frame) { f.RemoveStart? || f.RemoveHere? }

  function Dispatch(tb: Table, below: Stack, f: Frame): Move {
    if IsAdd(f) then AddMove(tb, below, f)
    else if IsSplit(f) then SplitMove(tb, below, f)
    else if IsRemove(f) then RemoveMove(tb, below, f)
    else LookMove(tb, below, f)
  }

  function Advance(tb: Table, stack: Stack): Move {
    if stack == [] then None else Dispatch(tb, Below(stack), Top(stack))
  }

  // ----- runs -----

  datatype State = State(tb: Table, calls: seq<Stack>)

  datatype Call = Insert(n: NodeInfo) | Find(id: U160) | Delete(id: U160)

  function Entry(call: Call): Stack {
    match call
    case Insert(n) => [AddStart(0, n)]
    case Find(id) => [LookStart(0, id)]
    case Delete(id) => [RemoveStart(0, id)]
  }

  /** An empty table and the calls that will be made of it, each to start when first scheduled. */
  function Start(own: U160, k: nat, calls: seq<Call>): State {
    State(Table(own, k, [[]], {}), seq(|calls|, i requires 0 <= i < |calls| => Entry(calls[i])))
  }

  /** One scheduling decision; a call that is over or waiting changes nothing. */
  function Tick(s: State, t: nat): (s': State)
    ensures |s'.calls| == |s.calls|
  {
    if t >= |s.calls| then s
    else
      match Advance(s.tb, s.calls[t])
      case None => s
      case Some((tb, stack)) => State(tb, s.calls[t := stack])
  }

  function Run(s: State, schedule: seq<nat>): (s': State)
    ensures |s'.calls| == |s.calls|
  {
    if schedule == [] then s else Tick(Run(s, schedule[..|schedule| - 1]), schedule[|schedule| - 1])
  }
}
