/**
 The transaction manager as a step system over one lock: handles that start, stage, write
 their buffers and stop, and the commit thread, whose journal and home writes are single
 device operations. Any interleaving of the two is a run.
 */
module Pipeline {
  import opened Bytes
  import opened DiskFormat
  import opened Device
  import opened LogFormat
  import opened Replay
  import opened CrashSafety
  import opened Checkpoint

  /** How many committed transactions may wait for their checkpoint. */
  const CKPT_LAG: nat := 2

  /** One staged block: its home location and its buffer. */
  datatype Node = Node(blockno: u64, buf: nat)

  /** A transaction on the checkpoint list; direct are the log positions of its data writes. */
  datatype Committed = Committed(sequence: u64, descOffset: nat, nodes: seq<Node>, direct: seq<nat>)

  datatype Resume = ToReclaim(nodes: seq<Node>, direct: seq<nat>) | ToLag | ToDrain

  /** Where the commit thread stands. */
  datatype Pc =
    | Waiting
    | Freezing
    | Forcing(nodes: seq<Node>, direct: seq<nat>)
    | Reclaiming(nodes: seq<Node>, direct: seq<nat>)
    | Committing(nodes: seq<Node>, direct: seq<nat>, done: nat)
    | Checkpointing(txn: Committed, done: nat, resume: Resume)
    | Lagging
    | Draining
    | Stopped

  datatype Handle = Handle(gen: nat, bufs: set<nat>)

  /**
   The state under the lock. running is the number the running generation is going to get,
   completed that number as of the last turn the thread has finished, syncs the callers
   waiting in a sync and the number each of them waits for.
   */
  datatype Sys = Sys(
    g: Geometry, ordered: bool, disk: Disk,
    head: nat, tail: nat, next: nat,
    bufs: seq<Block>, staged: map<u64, nat>, direct: seq<nat>,
    handles: map<nat, Handle>, born: map<nat, nat>, gen: nat,
    freezing: bool, requested: bool, shutdown: bool,
    running: nat, completed: nat, syncs: map<nat, nat>,
    ckpt: seq<Committed>, pc: Pc)

  datatype Action =
    | Start(h: nat)
    | Stage(h: nat, b: u64)
    | Fill(h: nat, buf: nat, data: Block)
    | WriteDirect(h: nat, b: u64, data: Block)
    | Stop(h: nat)
    | Sync(caller: nat)
    | Return(caller: nat)
    | Shutdown
    | Tick(nodes: seq<Node>)

  // ---- lookup ----

  predicate BufsIn(nodes: seq<Node>, n: nat) {
    forall i :: 0 <= i < |nodes| ==> nodes[i].buf < n
  }

  function CopiesOf(bufs: seq<Block>, nodes: seq<Node>): (cs: seq<Copy>)
    requires BufsIn(nodes, |bufs|)
    ensures |cs| == |nodes|
    ensures forall i :: 0 <= i < |cs| ==> cs[i] == Copy(nodes[i].blockno, bufs[nodes[i].buf])
  {
    seq(|nodes|, i requires 0 <= i < |nodes| => Copy(nodes[i].blockno, bufs[nodes[i].buf]))
  }

  function TxnOf(bufs: seq<Block>, sequence: u64, nodes: seq<Node>): Txn
    requires BufsIn(nodes, |bufs|)
  {
    Txn(sequence, CopiesOf(bufs, nodes), [])
  }

  predicate AllBufsIn(txns: seq<Committed>, n: nat) {
    forall i :: 0 <= i < |txns| ==> BufsIn(txns[i].nodes, n)
  }

  function TxnsOf(bufs: seq<Block>, txns: seq<Committed>): (ts: seq<Txn>)
    requires AllBufsIn(txns, |bufs|)
    ensures |ts| == |txns|
    ensures forall i :: 0 <= i < |ts| ==> ts[i] == TxnOf(bufs, txns[i].sequence, txns[i].nodes)
  {
    seq(|txns|, i requires 0 <= i < |txns| => TxnOf(bufs, txns[i].sequence, txns[i].nodes))
  }

  /** The newest copy on the checkpoint list, oldest to newest, the last one found wins. */
  function FindCheckpointed(bufs: seq<Block>, txns: seq<Committed>, b: nat): Option<Block>
    requires AllBufsIn(txns, |bufs|)
    decreases |txns|
  {
    if txns == [] then None else
    var c := LastCopy(CopiesOf(bufs, txns[|txns| - 1].nodes), b);
    if c.Some? then c else FindCheckpointed(bufs, txns[..|txns| - 1], b)
  }

  /** What the buffer of a block staged for the first time starts with. */
  function Seed(s: Sys, b: nat): Block
    requires AllBufsIn(s.ckpt, |s.bufs|) && b < |s.disk.base|
  {
    var c := FindCheckpointed(s.bufs, s.ckpt, b);
    if c.Some? then c.value else View(s.disk, b)
  }

  /** The three-tier lookup: staging table, checkpoint list, device. */
  function ReadBlock(s: Sys, b: u64): Block
    requires AllBufsIn(s.ckpt, |s.bufs|) && b < |s.disk.base|
    requires b in s.staged ==> s.staged[b] < |s.bufs|
  {
    if b in s.staged then s.bufs[s.staged[b]] else Seed(s, b)
  }

  // ---- steps ----

  /** nodes lists every staged block once, in whatever order the buckets give. */
  ghost predicate Flattens(nodes: seq<Node>, staged: map<u64, nat>) {
    && (forall i :: 0 <= i < |nodes| ==> nodes[i].blockno in staged && staged[nodes[i].blockno] == nodes[i].buf)
    && (forall i, j :: 0 <= i < j < |nodes| ==> nodes[i].blockno != nodes[j].blockno)
    && (forall b :: b in staged ==> exists i :: 0 <= i < |nodes| && nodes[i] == Node(b, staged[b]))
  }

  /** What the model asks of the shape of a state for its functions to be defined. */
  ghost predicate Shaped(s: Sys) {
    && Fits(s.g, |s.disk.base|)
    && AllBufsIn(s.ckpt, |s.bufs|)
    && (forall b :: b in s.staged ==> s.staged[b] < |s.bufs|)
    && (s.pc.Forcing? || s.pc.Reclaiming? || s.pc.Committing? ==> BufsIn(s.pc.nodes, |s.bufs|))
    && (s.pc.Checkpointing? ==> BufsIn(s.pc.txn.nodes, |s.bufs|))
    && (s.pc.Checkpointing? && s.pc.resume.ToReclaim? ==> BufsIn(s.pc.resume.nodes, |s.bufs|))
  }

  /** The buffer of block b, or the one it gets when it is staged for the first time. */
  function BufOf(s: Sys, b: u64): nat {
    if b in s.staged then s.staged[b] else |s.bufs|
  }

  function WithHandleBuf(handles: map<nat, Handle>, h: nat, buf: nat): map<nat, Handle>
    requires h in handles
  {
    handles[h := Handle(handles[h].gen, handles[h].bufs + {buf})]
  }

  function StageStep(s: Sys, h: nat, b: u64): Sys
    requires Shaped(s) && h in s.handles && b < |s.disk.base|
  {
    s.(bufs := if b in s.staged then s.bufs else s.bufs + [Seed(s, b)],
       staged := s.staged[b := BufOf(s, b)],
       handles := WithHandleBuf(s.handles, h, BufOf(s, b)))
  }

  /** checkpoint_oldest takes the oldest transaction off the list. */
  function PopOldest(s: Sys, resume: Resume): Sys
    requires s.ckpt != []
  {
    s.(ckpt := s.ckpt[1..], pc := Checkpointing(s.ckpt[0], 0, resume))
  }

  function NewTail(s: Sys): nat {
    if s.ckpt != [] then s.ckpt[0].descOffset else s.head
  }

  function NewTailSequence(s: Sys): nat {
    if s.ckpt != [] then s.ckpt[0].sequence else s.next
  }

  function Resumed(r: Resume): Pc {
    match r
    case ToReclaim(nodes, direct) => Reclaiming(nodes, direct)
    case ToLag => Lagging
    case ToDrain => Draining
  }

  function CheckpointScript(s: Sys): seq<Op>
    requires Shaped(s) && s.pc.Checkpointing?
  {
    CheckpointOps(s.g, CopiesOf(s.bufs, s.pc.txn.nodes), NewTail(s), NewTailSequence(s), s.head)
  }

  function CommitScript(s: Sys): seq<Op>
    requires Shaped(s) && s.pc.Committing? && s.next < U64 && |s.pc.nodes| <= MAX_TAGS
  {
    CommitOps(s.g, s.head, s.tail == s.head, TxnOf(s.bufs, s.next, s.pc.nodes))
  }

  /** The commit is done: head and numbers move on, the transaction joins the checkpoint list. */
  function Published(s: Sys): Sys
    requires s.pc.Committing? && s.next < U64
  {
    s.(head := s.head + |s.pc.nodes| + 2,
       next := s.next + 1,
       running := s.next + 1,
       completed := s.running,
       ckpt := s.ckpt + [Committed(s.next, s.head, s.pc.nodes, s.pc.direct)],
       pc := Lagging)
  }

  /** The commit has failed: the generation is given up, and counts as completed all the same. */
  function GivenUp(s: Sys): Sys {
    s.(completed := s.running, running := s.next, pc := Lagging)
  }

  // ---- steps of the commit thread ----

  ghost predicate WaitTick(s: Sys, t: Sys) {
    if s.shutdown then t == s.(pc := Draining)
    else (s.staged != map[] || s.requested) && t == s.(freezing := true, pc := Freezing)
  }

  /** The snapshot: everything staged moves to the commit, the next generation begins. */
  ghost predicate FreezeTick(s: Sys, t: Sys, nodes: seq<Node>) {
    && s.handles == map[] && Flattens(nodes, s.staged)
    && t == s.(staged := map[], direct := [], requested := false, freezing := false, gen := s.gen + 1,
               pc := Forcing(nodes, s.direct))
  }

  /** The ordered data becomes durable. With nothing staged that is all, and the turn is completed. */
  ghost predicate ForceTick(s: Sys, t: Sys)
    requires s.pc.Forcing?
  {
    t == s.(pc := if s.pc.nodes == [] then Lagging else Reclaiming(s.pc.nodes, s.pc.direct),
            completed := if s.pc.nodes == [] then s.running else s.completed,
            disk := if s.ordered && s.pc.direct != [] then Do(s.disk, Flush) else s.disk)
  }

  /** The reclaim loop, and commit's own size and space checks after it. */
  ghost predicate ReclaimTick(s: Sys, t: Sys)
    requires s.pc.Reclaiming?
  {
    var needed, free := SpaceNeeded(|s.pc.nodes|, 0), FreeSpace(s.g.maxlen, s.head, s.tail);
    if free < needed && s.ckpt != [] then t == PopOldest(s, ToReclaim(s.pc.nodes, s.pc.direct))
    else if needed == 0 || needed > free then t == GivenUp(s)
    else s.next + 1 < U64 && s.head + needed < EMPTY && t == s.(pc := Committing(s.pc.nodes, s.pc.direct, 0))
  }

  ghost predicate CommitTick(s: Sys, t: Sys)
    requires Shaped(s) && s.pc.Committing?
  {
    && |s.pc.nodes| <= MAX_TAGS && s.next < U64
    && if s.pc.done < |CommitScript(s)| then
         t == s.(disk := Do(s.disk, CommitScript(s)[s.pc.done]),
                 pc := Committing(s.pc.nodes, s.pc.direct, s.pc.done + 1))
       else t == Published(s)
  }

  ghost predicate CheckpointTick(s: Sys, t: Sys)
    requires Shaped(s) && s.pc.Checkpointing?
  {
    if s.pc.done < |CheckpointScript(s)| then
      t == s.(disk := Do(s.disk, CheckpointScript(s)[s.pc.done]),
              pc := Checkpointing(s.pc.txn, s.pc.done + 1, s.pc.resume))
    else t == s.(tail := NewTail(s), pc := Resumed(s.pc.resume))
  }

  ghost predicate LagTick(s: Sys, t: Sys) {
    if |s.ckpt| > CKPT_LAG then t == PopOldest(s, ToLag) else t == s.(pc := Waiting)
  }

  ghost predicate DrainTick(s: Sys, t: Sys) {
    if s.ckpt != [] then t == PopOldest(s, ToDrain) else t == s.(pc := Stopped)
  }

  ghost predicate TickStep(s: Sys, t: Sys, nodes: seq<Node>)
    requires Shaped(s)
  {
    match s.pc
    case Waiting => WaitTick(s, t)
    case Freezing => FreezeTick(s, t, nodes)
    case Forcing(_, _) => ForceTick(s, t)
    case Reclaiming(_, _) => ReclaimTick(s, t)
    case Committing(_, _, _) => CommitTick(s, t)
    case Checkpointing(_, _, _) => CheckpointTick(s, t)
    case Lagging => LagTick(s, t)
    case Draining => DrainTick(s, t)
    case Stopped => false
  }

  /**
   One step of the system. Callers stage and write home blocks only, and nothing they write
   reads as a commit block with a number still to be given out.
   */
  ghost predicate Step(s: Sys, a: Action, t: Sys) {
    && Shaped(s)
    && match a
       case Start(h) =>
         && !s.freezing && h !in s.born
         && t == s.(handles := s.handles[h := Handle(s.gen, {})], born := s.born[h := s.gen])
       case Stage(h, b) =>
         h in s.handles && IsHome(s.g, |s.disk.base|, b) && t == StageStep(s, h, b)
       case Fill(h, buf, data) =>
         && h in s.handles && buf in s.handles[h].bufs && buf < |s.bufs| && Older(data, s.next)
         && t == s.(bufs := s.bufs[buf := data])
       case WriteDirect(h, b, data) =>
         && s.ordered && h in s.handles && IsHome(s.g, |s.disk.base|, b) && Older(data, s.next)
         && t == s.(disk := Do(s.disk, Write(b, data)), direct := s.direct + [|s.disk.log|])
       case Stop(h) =>
         h in s.handles && t == s.(handles := s.handles - {h})
       case Sync(caller) =>
         caller !in s.syncs && t == s.(requested := true, syncs := s.syncs[caller := s.running])
       case Return(caller) =>
         && caller in s.syncs && (s.syncs[caller] <= s.completed || s.shutdown)
         && t == s.(syncs := s.syncs - {caller})
       case Shutdown => t == s.(shutdown := true)
       case Tick(nodes) => TickStep(s, t, nodes)
  }

  /** A run: states joined by actions. */
  ghost predicate IsRun(states: seq<Sys>, actions: seq<Action>) {
    && |states| == |actions| + 1
    && forall i :: 0 <= i < |actions| ==> Step(states[i], actions[i], states[i + 1])
  }
}
