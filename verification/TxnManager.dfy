/**
 The transaction manager as the program runs it: a hash table of staged blocks, the list of
 transactions waiting for their checkpoint, and the cycle of the commit thread. Waiting on
 the condition variable is not modelled: a method that waits requires what it waits for.
 */
module TxnManager {
  import opened Bytes
  import opened DiskFormat
  import opened Device
  import opened LogFormat
  import opened Replay
  import opened CrashSafety
  import opened Checkpoint
  import opened Pipeline
  import opened PipelineJournal
  import J = Journal

  const BUCKETS: nat := 61

  datatype Mode = Ordered | Journaled

  class DirtyBlock {
    const blockno: u64
    var data: Block

    constructor (blockno: u64, data: Block)
      ensures this.blockno == blockno && this.data == data
    {
      this.blockno, this.data := blockno, data;
    }
  }

  datatype CommittedTxn = CommittedTxn(sequence: u64, descOffset: u64, nodes: seq<DirtyBlock>)

  function Hash(blockno: u64): (h: nat)
    ensures h < BUCKETS
  {
    blockno % BUCKETS
  }

  /** The content of staged blocks as the journal would log it. */
  ghost function Contents(nodes: seq<DirtyBlock>): (cs: seq<Copy>)
    reads nodes
    ensures |cs| == |nodes| && forall i :: 0 <= i < |cs| ==> cs[i] == Copy(nodes[i].blockno, nodes[i].data)
  {
    seq(|nodes|, i requires 0 <= i < |nodes| reads nodes => Copy(nodes[i].blockno, nodes[i].data))
  }

  ghost function NodesOf(list: seq<CommittedTxn>): set<DirtyBlock> {
    set i, k | 0 <= i < |list| && 0 <= k < |list[i].nodes| :: list[i].nodes[k]
  }

  /** The listed transactions as they stand in the log. */
  ghost function Logged(list: seq<CommittedTxn>): (ts: seq<Txn>)
    reads NodesOf(list)
    ensures |ts| == |list|
  {
    seq(|list|, i requires 0 <= i < |list| reads NodesOf(list) =>
      assert forall n :: n in list[i].nodes ==> n in NodesOf(list);
      Txn(list[i].sequence, Contents(list[i].nodes), []))
  }

  /** What the tiling of the log depends on. */
  ghost function Outline(list: seq<CommittedTxn>): (es: seq<Committed>)
    ensures |es| == |list|
  {
    seq(|list|, i requires 0 <= i < |list| =>
      Committed(list[i].sequence, list[i].descOffset, seq(|list[i].nodes|, _ => Node(0, 0)), []))
  }

  /** nodes lists every staged block exactly once. */
  ghost predicate Lists(nodes: seq<DirtyBlock>, staged: map<u64, DirtyBlock>) {
    && (forall i :: 0 <= i < |nodes| ==> nodes[i].blockno in staged && staged[nodes[i].blockno] == nodes[i])
    && (forall i, j :: 0 <= i < j < |nodes| ==> nodes[i].blockno != nodes[j].blockno)
    && (forall b :: b in staged ==> staged[b] in nodes)
  }

  /** A bucket holds the staged blocks of its hash, each once. */
  ghost predicate BucketOk(nodes: seq<DirtyBlock>, h: nat, staged: map<u64, DirtyBlock>) {
    && (forall i :: 0 <= i < |nodes| ==> Hash(nodes[i].blockno) == h)
    && (forall i :: 0 <= i < |nodes| ==> nodes[i].blockno in staged && staged[nodes[i].blockno] == nodes[i])
    && (forall i, j :: 0 <= i < j < |nodes| ==> nodes[i].blockno != nodes[j].blockno)
  }

  ghost predicate ListOnDisk(list: seq<CommittedTxn>, nblocks: nat) {
    forall i, k :: 0 <= i < |list| && 0 <= k < |list[i].nodes| ==> list[i].nodes[k].blockno < nblocks
  }

  lemma {:induction false} NewestOnDisk(list: seq<CommittedTxn>, nblocks: nat, b: u64)
    requires ListOnDisk(list, nblocks) && NewestCopy(Logged(list), b).Some?
    ensures b < nblocks
  {
    var i := NewestIndex(Logged(list), b);
    var k := LastIndex(Logged(list)[i].copies, b);
    assert list[i].nodes[k].blockno == b;
  }

  lemma {:induction false} NewestIndex(txns: seq<Txn>, b: nat) returns (i: nat)
    requires NewestCopy(txns, b).Some?
    ensures i < |txns| && LastCopy(txns[i].copies, b).Some?
    decreases |txns|
  {
    if LastCopy(txns[|txns| - 1].copies, b).Some? {
      i := |txns| - 1;
    } else {
      i := NewestIndex(txns[..|txns| - 1], b);
    }
  }

  ghost predicate Distinct(nodes: seq<DirtyBlock>) {
    forall i, j :: 0 <= i < j < |nodes| ==> nodes[i].blockno != nodes[j].blockno
  }

  ghost predicate StagedIn(nodes: seq<DirtyBlock>, staged: map<u64, DirtyBlock>) {
    forall i :: 0 <= i < |nodes| ==> nodes[i].blockno in staged && staged[nodes[i].blockno] == nodes[i]
  }

  ghost function Numbers(nodes: seq<DirtyBlock>): (bs: seq<u64>)
    ensures |bs| == |nodes| && forall i :: 0 <= i < |bs| ==> bs[i] == nodes[i].blockno
  {
    seq(|nodes|, i requires 0 <= i < |nodes| => nodes[i].blockno)
  }

  /** Staged blocks without repetition are no more than the table counts. */
  lemma FlatRoom(nodes: seq<DirtyBlock>, staged: map<u64, DirtyBlock>)
    requires Distinct(nodes) && StagedIn(nodes, staged)
    ensures |nodes| <= |staged|
  {
    Pigeonhole(Numbers(nodes), staged.Keys);
  }

  /** The next block of a chain is not among those already flattened. */
  lemma NewToFlat(before: seq<DirtyBlock>, chain: seq<DirtyBlock>, k: nat, h: nat, staged: map<u64, DirtyBlock>)
    requires k < |chain| && BucketOk(chain, h, staged)
    requires Distinct(before + chain[..k]) && StagedIn(before + chain[..k], staged)
    requires forall i :: 0 <= i < |before| ==> Hash(before[i].blockno) < h
    ensures Distinct(before + chain[..k] + [chain[k]]) && StagedIn(before + chain[..k] + [chain[k]], staged)
  {
    var flat := before + chain[..k];
    forall i | 0 <= i < |flat| ensures flat[i].blockno != chain[k].blockno {
      if i < |before| {
        assert flat[i] == before[i];
      } else {
        assert flat[i] == chain[i - |before|];
      }
    }
  }

  /** All of them are as many as the table counts. */
  lemma FlatAll(nodes: seq<DirtyBlock>, staged: map<u64, DirtyBlock>)
    requires Lists(nodes, staged) && forall b :: b in staged ==> staged[b].blockno == b
    ensures |nodes| == |staged|
  {
    FlatRoom(nodes, staged);
    forall b | b in staged.Keys ensures b in Numbers(nodes) {
      var i :| 0 <= i < |nodes| && nodes[i] == staged[b];
      assert Numbers(nodes)[i] == b;
    }
    Covering(staged.Keys, Numbers(nodes));
  }

  /** Tiling without the oldest: the next one begins where the oldest ended. */
  lemma {:induction false} TileTail(list: seq<CommittedTxn>, tail: nat, head: nat, number: nat)
    requires list != [] && Tiles(Outline(list), tail, number) && head == tail + Span(Outline(list))
    ensures var newTail: nat := if |list| > 1 then list[1].descOffset else head;
            Tiles(Outline(list[1..]), newTail, number + 1) && head == newTail + Span(Outline(list[1..]))
    ensures Span(Outline(list[1..])) <= Span(Outline(list))
    ensures |list| > 1 ==> list[1].sequence == number + 1
  {
    assert Outline(list)[1..] == Outline(list[1..]);
    if |list| > 1 {
      assert Outline(list[1..])[0].descOffset == list[1].descOffset;
    }
  }

  lemma {:induction false} TileSnoc(list: seq<CommittedTxn>, tail: nat, head: nat, number: nat, t: CommittedTxn)
    requires Tiles(Outline(list), tail, number) && head == tail + Span(Outline(list))
    requires t.descOffset == head && t.sequence == number + |list|
    ensures Tiles(Outline(list + [t]), tail, number)
    ensures Span(Outline(list + [t])) == Span(Outline(list)) + |t.nodes| + 2
  {
    var c := Outline([t])[0];
    assert Outline(list + [t]) == Outline(list) + [c];
    TilesSnoc(Outline(list), tail, number, c);
  }

  lemma EmptySpan(list: seq<CommittedTxn>)
    ensures list == [] ==> Span(Outline(list)) == 0
    ensures Span(Outline(list)) >= 2 * |list|
  {
    SpanEmpty(Outline(list));
  }

  lemma ListSnoc(list: seq<CommittedTxn>, t: CommittedTxn, nblocks: nat)
    requires ListOnDisk(list, nblocks) && forall k :: 0 <= k < |t.nodes| ==> t.nodes[k].blockno < nblocks
    ensures ListOnDisk(list + [t], nblocks)
    ensures forall n :: n in NodesOf(list + [t]) ==> n in NodesOf(list) || n in t.nodes
  {}

  lemma ListTail(list: seq<CommittedTxn>, nblocks: nat)
    requires list != [] && ListOnDisk(list, nblocks)
    ensures ListOnDisk(list[1..], nblocks) && NodesOf(list[1..]) <= NodesOf(list)
    ensures forall k :: 0 <= k < |list[0].nodes| ==> list[0].nodes[k].blockno < nblocks
  {
    forall i, k | 0 <= i < |list[1..]| && 0 <= k < |list[1..][i].nodes|
      ensures list[1..][i].nodes[k].blockno < nblocks && list[1..][i].nodes[k] in NodesOf(list)
    {
      assert list[1..][i] == list[i + 1];
    }
  }

  /** The operations of a checkpoint in the order they were issued. */
  lemma CheckpointScriptOf(before: Disk, g: Geometry, copies: seq<Copy>, newTail: nat, newSequence: nat, head: nat,
                           after: Disk)
    requires after == Run(Do(Run(before, InstallOps(copies)), Flush),
             [Write(JSUPER, TailSuper(g, newTail, newSequence, head)), Flush])
    ensures after == Run(before, CheckpointOps(g, copies, newTail, newSequence, head))
  {
    hide InstallOps, TailSuper;
    assert after.log == before.log + CheckpointOps(g, copies, newTail, newSequence, head);
  }

  /** The disk has gone on from one state to another; nothing issued is taken back. */
  ghost predicate Follows(d: Disk, e: Disk) {
    e.base == d.base && d.log <= e.log
  }

  lemma RunFollows(d: Disk, ops: seq<Op>)
    ensures Follows(d, Run(d, ops))
  {}

  // ---- content behind the staging table ----

  /** Block b with the transactions laid over the disk. */
  function BehindOf(txns: seq<Txn>, d: Disk, b: nat): Block
    requires b < |d.base|
  {
    var c := NewestCopy(txns, b);
    if c.Some? then c.value else View(d, b)
  }

  /** Readers cannot tell the one from the other: the journal superblock aside, every block reads the same. */
  ghost predicate ReadsAlike(txns: seq<Txn>, d: Disk, after: seq<Txn>, e: Disk) {
    |d.base| == |e.base|
    && forall b: nat :: b < |d.base| && b != JSUPER ==> BehindOf(after, e, b) == BehindOf(txns, d, b)
  }

  /** Where the list entries begin in the log. */
  function Places(list: seq<CommittedTxn>): (xs: seq<nat>)
    ensures |xs| == |list| && forall i :: 0 <= i < |xs| ==> xs[i] == list[i].descOffset
  {
    seq(|list|, i requires 0 <= i < |list| => list[i].descOffset)
  }

  /** The checkpoint of transaction i: its copies, a flush, and the superblock for the one behind it. */
  function OneHome(g: Geometry, txns: seq<Txn>, places: seq<nat>, i: nat, head: nat, next: nat): seq<Op>
    requires i < |txns| == |places|
  {
    var last := i + 1 == |txns|;
    var newTail, number := if last then head else places[i + 1], if last then next else txns[i + 1].sequence;
    CheckpointOps(g, txns[i].copies, newTail, number, head)
  }

  /** The checkpoints of the first k transactions, oldest first. */
  function AllHome(g: Geometry, txns: seq<Txn>, places: seq<nat>, k: nat, head: nat, next: nat): seq<Op>
    requires k <= |txns| == |places|
  {
    if k == 0 then [] else AllHome(g, txns, places, k - 1, head, next) + OneHome(g, txns, places, k - 1, head, next)
  }

  lemma RunConcat(d: Disk, a: seq<Op>, c: seq<Op>)
    ensures Run(Run(d, a), c) == Run(d, a + c)
  {
    assert d.log + a + c == d.log + (a + c);
  }

  /** Operations that write b nowhere leave it as it reads. */
  lemma {:induction false} RunAway(d: Disk, ops: seq<Op>, b: nat)
    requires b < |d.base| && forall i :: 0 <= i < |ops| ==> Elsewhere(ops[i], b)
    ensures View(Run(d, ops), b) == View(d, b)
    decreases |ops|
  {
    hide View;
    if ops == [] {
      assert Run(d, ops) == d;
    } else {
      var front, op := ops[..|ops| - 1], ops[|ops| - 1];
      assert ops == front + [op];
      RunSnoc(d, front, op);
      assert Elsewhere(op, b);
      DoView(Run(d, front), op, b);
      RunAway(d, front, b);
    }
  }

  predicate Elsewhere(op: Op, b: nat) {
    op.Write? ==> op.blockno != b
  }

  lemma {:induction false} OneHomeView(d: Disk, g: Geometry, copies: seq<Copy>, newTail: nat, newSequence: nat,
                                       head: nat, b: nat)
    requires b < |d.base| && b != JSUPER
    ensures View(Run(d, CheckpointOps(g, copies, newTail, newSequence, head)), b)
         == if LastCopy(copies, b).Some? then LastCopy(copies, b).value else View(d, b)
  {
    hide View, TailSuper, InstallOps;
    InstallView(d, copies, b);
    var rest := [Flush, Write(JSUPER, TailSuper(g, newTail, newSequence, head)), Flush];
    RunConcat(d, InstallOps(copies), rest);
    RunAway(Run(d, InstallOps(copies)), rest, b);
  }

  /** The oldest transactions may go home, one after the other, without any reader noticing. */
  lemma {:induction false} AllHomeAlike(d: Disk, g: Geometry, txns: seq<Txn>, places: seq<nat>, k: nat, head: nat,
                                       next: nat)
    requires k <= |txns| == |places|
    ensures ReadsAlike(txns, d, txns[k..], Run(d, AllHome(g, txns, places, k, head, next)))
    decreases k
  {
    hide View, CheckpointOps;
    if k == 0 {
      assert Run(d, []) == d && txns[0..] == txns;
    } else {
      var t := txns[k - 1];
      AllHomeAlike(d, g, txns, places, k - 1, head, next);
      var e := Run(d, AllHome(g, txns, places, k - 1, head, next));
      var f := Run(d, AllHome(g, txns, places, k, head, next));
      RunConcat(d, AllHome(g, txns, places, k - 1, head, next), OneHome(g, txns, places, k - 1, head, next));
      var was, now := txns[k - 1..], txns[k..];
      assert was == [t] + now;
      var last := k == |txns|;
      var newTail, number := if last then head else places[k], if last then next else txns[k].sequence;
      forall b: nat | b < |d.base| && b != JSUPER ensures BehindOf(now, f, b) == BehindOf(was, e, b) {
        OneHomeView(e, g, t.copies, newTail, number, head, b);
        NewestCons(t, now, b);
      }
    }
  }

  /** A commit writes no home block, and adds one transaction in front of everything. */
  lemma {:induction false} CommitBehind(txns: seq<Txn>, d: Disk, g: Geometry, head: nat, wasEmpty: bool, t: Txn, b: nat)
    requires Fits(g, |d.base|) && Encodable(t) && IsHome(g, |d.base|, b) && b < |d.base|
    ensures BehindOf(txns + [t], Run(d, CommitOps(g, head, wasEmpty, t)), b)
         == if LastCopy(t.copies, b).Some? then LastCopy(t.copies, b).value else BehindOf(txns, d, b)
  {
    hide View, CommitOps, PhysOf;
    var ops := CommitOps(g, head, wasEmpty, t);
    forall i | 0 <= i < |ops| ensures Elsewhere(ops[i], b) {
      CommitOpsAway(g, |d.base|, head, wasEmpty, t, i);
    }
    RunAway(d, ops, b);
    NewestSnoc(txns, t, b);
  }

  /** The newest of the copies of b, or what is below them. */
  function Newer(copies: seq<Copy>, b: nat, below: Block): Block {
    if LastCopy(copies, b).Some? then LastCopy(copies, b).value else below
  }

  /** Every home block reads as its newest copy, or as it read before. */
  ghost predicate Overlays(g: Geometry, copies: seq<Copy>, txns: seq<Txn>, d: Disk, after: seq<Txn>, e: Disk) {
    |d.base| == |e.base|
    && forall b: nat :: b < |d.base| && IsHome(g, |d.base|, b) ==>
         BehindOf(after, e, b) == Newer(copies, b, BehindOf(txns, d, b))
  }

  lemma CommitOverlays(txns: seq<Txn>, d: Disk, g: Geometry, head: nat, wasEmpty: bool, t: Txn)
    requires Fits(g, |d.base|) && Encodable(t)
    ensures Overlays(g, t.copies, txns, d, txns + [t], Run(d, CommitOps(g, head, wasEmpty, t)))
  {
    hide View, CommitOps, PhysOf, IsHome, BehindOf;
    forall b: nat | b < |d.base| && IsHome(g, |d.base|, b)
      ensures BehindOf(txns + [t], Run(d, CommitOps(g, head, wasEmpty, t)), b)
           == Newer(t.copies, b, BehindOf(txns, d, b))
    {
      CommitBehind(txns, d, g, head, wasEmpty, t, b);
    }
  }

  lemma AlikeOverlays(g: Geometry, copies: seq<Copy>, a: seq<Txn>, d: Disk, c: seq<Txn>, e: Disk, x: seq<Txn>, f: Disk)
    requires ReadsAlike(a, d, c, e) && Overlays(g, copies, c, e, x, f)
    ensures Overlays(g, copies, a, d, x, f)
  {
    hide BehindOf;
    forall b: nat | b < |d.base| && IsHome(g, |d.base|, b)
      ensures BehindOf(x, f, b) == Newer(copies, b, BehindOf(a, d, b))
    {
      assert BehindOf(x, f, b) == Newer(copies, b, BehindOf(c, e, b));
    }
  }

  lemma OverlaysAlike(g: Geometry, copies: seq<Copy>, a: seq<Txn>, d: Disk, c: seq<Txn>, e: Disk, x: seq<Txn>, f: Disk)
    requires Overlays(g, copies, a, d, c, e) && ReadsAlike(c, e, x, f)
    ensures Overlays(g, copies, a, d, x, f)
  {
    hide BehindOf;
    forall b: nat | b < |d.base| && IsHome(g, |d.base|, b)
      ensures BehindOf(x, f, b) == Newer(copies, b, BehindOf(a, d, b))
    {
      assert BehindOf(x, f, b) == BehindOf(c, e, b);
    }
  }

  lemma SameBase(g: Geometry, copies: seq<Copy>, txns: seq<Txn>, d: Disk, after: seq<Txn>, e: Disk)
    requires Overlays(g, copies, txns, d, after, e)
    ensures |d.base| == |e.base|
  {}

  lemma NothingOver(g: Geometry, txns: seq<Txn>, d: Disk)
    ensures Overlays(g, [], txns, d, txns, d)
  {
    hide BehindOf;
  }

  /** The first k entries of the list have gone home: what was issued, and what is left. */
  ghost predicate WentHome(g: Geometry, list: seq<CommittedTxn>, txns: seq<Txn>, d: Disk, head: nat, next: nat, k: nat,
                           rest: seq<CommittedTxn>, e: Disk)
  {
    && k <= |list| == |txns|
    && rest == list[k..]
    && e == Run(d, AllHome(g, txns, Places(list), k, head, next))
  }

  ghost predicate Numbered(list: seq<CommittedTxn>, txns: seq<Txn>) {
    |list| == |txns| && forall i :: 0 <= i < |list| ==> txns[i].sequence == list[i].sequence
  }

  lemma NoneHome(g: Geometry, list: seq<CommittedTxn>, txns: seq<Txn>, d: Disk, head: nat, next: nat)
    requires |list| == |txns|
    ensures WentHome(g, list, txns, d, head, next, 0, list, d)
  {
    assert d.log + [] == d.log;
  }

  lemma OneMoreHome(g: Geometry, list: seq<CommittedTxn>, txns: seq<Txn>, d: Disk, head: nat, next: nat, k: nat,
                    rest: seq<CommittedTxn>, e: Disk, f: Disk)
    requires WentHome(g, list, txns, d, head, next, k, rest, e) && rest != []
    requires Numbered(list, txns)
    requires f == Run(e, CheckpointOps(g, txns[k].copies, if |rest| > 1 then rest[1].descOffset else head,
                                       if |rest| > 1 then rest[1].sequence else next, head))
    ensures WentHome(g, list, txns, d, head, next, k + 1, rest[1..], f)
  {
    hide CheckpointOps;
    RunConcat(d, AllHome(g, txns, Places(list), k, head, next), OneHome(g, txns, Places(list), k, head, next));
  }

  lemma LoggedAt(list: seq<CommittedTxn>, k: nat)
    requires k <= |list|
    ensures k < |list| ==> Logged(list)[k] == Txn(list[k].sequence, Contents(list[k].nodes), [])
    ensures Logged(list[k..]) == Logged(list)[k..]
    ensures Numbered(list, Logged(list))
  {}

  lemma LoggedSnoc(list: seq<CommittedTxn>, t: CommittedTxn)
    ensures Logged(list + [t]) == Logged(list) + [Txn(t.sequence, Contents(t.nodes), [])]
  {}

  /** With the list empty, readers get the device. */
  lemma NothingBehind(list: seq<CommittedTxn>)
    requires list == []
    ensures Logged(list) == []
    ensures forall d: Disk, b: nat :: b < |d.base| ==> BehindOf([], d, b) == View(d, b)
  {}

  /** What went home reads as before. */
  lemma HomeAlike(g: Geometry, list: seq<CommittedTxn>, d: Disk, head: nat, next: nat, k: nat,
                  rest: seq<CommittedTxn>, e: Disk)
    requires WentHome(g, list, Logged(list), d, head, next, k, rest, e)
    ensures ReadsAlike(Logged(list), d, Logged(rest), e) && Follows(d, e)
  {
    hide Logged, AllHome;
    LoggedAt(list, k);
    AllHomeAlike(d, g, Logged(list), Places(list), k, head, next);
    RunFollows(d, AllHome(g, Logged(list), Places(list), k, head, next));
  }

  lemma RestIs(g: Geometry, list: seq<CommittedTxn>, txns: seq<Txn>, d: Disk, head: nat, next: nat, k: nat,
               rest: seq<CommittedTxn>, e: Disk)
    requires WentHome(g, list, txns, d, head, next, k, rest, e)
    ensures k <= |list| && rest == list[k..] && (k == 0 ==> rest == list)
  {}

  /** The entry before the k-th had to go: without that there was not the room needed. */
  ghost predicate NotSooner(list: seq<CommittedTxn>, k: nat, g: Geometry, needed: nat) {
    k == 0 || (k <= |list| && g.maxlen - Span(Outline(list[k - 1..])) < needed)
  }

  /** Nor had more to go: without the first k there is the room needed, or nothing is left. */
  ghost predicate NoLater(list: seq<CommittedTxn>, k: nat, g: Geometry, needed: nat) {
    k <= |list| && (k == |list| || g.maxlen - Span(Outline(list[k..])) >= needed)
  }

  /** A generation of n blocks is committed, not given up. */
  predicate FitsLog(g: Geometry, n: nat) {
    0 < n <= MAX_TAGS && n + 2 <= g.maxlen
  }

  lemma FollowsOn(d: Disk, e: Disk, f: Disk)
    requires Follows(d, e) && Follows(e, f)
    ensures Follows(d, f)
  {}

  /** The commit of t took the disk from before to after. */
  ghost predicate CommittedBy(before: Disk, after: Disk, g: Geometry, head: nat, wasEmpty: bool, t: Txn) {
    g.maxlen > 0 && Encodable(t) && after == Run(before, CommitOps(g, head, wasEmpty, t))
  }

  /** The checkpoint list with what it has logged, and the device and cursor it belongs to. */
  datatype Queue = Queue(list: seq<CommittedTxn>, txns: seq<Txn>, disk: Disk, head: u64, next: u64)

  /** The number of transactions that go home when n are listed. */
  function Beyond(n: nat): nat {
    if n <= CKPT_LAG then 0 else n - CKPT_LAG
  }

  /** To make room for a snapshot the first k transactions have gone home, and no fewer would do. */
  ghost predicate HomeFirst(g: Geometry, q: Queue, nodes: seq<DirtyBlock>, k: nat, mid: Disk) {
    && k <= |q.list| == |q.txns|
    && WentHome(g, q.list, q.txns, q.disk, q.head, q.next, k, q.list[k..], mid)
    && (if nodes == [] then k == 0
        else NotSooner(q.list, k, g, SpaceNeeded(|nodes|, 0)) && NoLater(q.list, k, g, SpaceNeeded(|nodes|, 0)))
  }

  /** The snapshot behind what is left of the list, if it fits, and the cursor behind its blocks. */
  function Listed(g: Geometry, q: Queue, nodes: seq<DirtyBlock>, copies: seq<Copy>, k: nat, done: Disk): (s: Queue)
    requires k <= |q.list| == |q.txns|
  {
    if FitsLog(g, |nodes|) then
      Queue(q.list[k..] + [CommittedTxn(q.next, q.head, nodes)], q.txns[k..] + [J.TxnFor(q.next, copies, [])],
            done, J.Wrap(q.head + |nodes| + 2), J.Wrap(q.next + 1))
    else Queue(q.list[k..], q.txns[k..], done, q.head, q.next)
  }

  /** From mid on the snapshot has been committed, if it fits. */
  ghost predicate CommitsAt(g: Geometry, q: Queue, nodes: seq<DirtyBlock>, copies: seq<Copy>, k: nat, mid: Disk,
                            done: Disk)
  {
    if FitsLog(g, |nodes|) then CommittedBy(mid, done, g, q.head, k == |q.list|, J.TxnFor(q.next, copies, []))
    else done == mid
  }

  /** The transactions beyond the lag have gone home. */
  ghost predicate LagGone(g: Geometry, q: Queue, r: Queue) {
    && r.head == q.head && r.next == q.next && Beyond(|q.list|) <= |q.txns|
    && WentHome(g, q.list, q.txns, q.disk, q.head, q.next, Beyond(|q.list|), r.list, r.disk)
    && r.txns == q.txns[Beyond(|q.list|)..]
  }

  /**
   One turn of the thread as operations: transactions go home to make room, which leaves the
   device at mid; the snapshot is committed if it fits, which leaves it at done; the
   transactions beyond the lag go home. All of q becomes r by that and nothing else.
   */
  ghost predicate TurnBy(g: Geometry, q: Queue, nodes: seq<DirtyBlock>, copies: seq<Copy>, k: nat, mid: Disk,
                         done: Disk, r: Queue)
  {
    && HomeFirst(g, q, nodes, k, mid) && CommitsAt(g, q, nodes, copies, k, mid, done)
    && LagGone(g, Listed(g, q, nodes, copies, k, done), r)
  }

  ghost predicate Turned(g: Geometry, q: Queue, nodes: seq<DirtyBlock>, copies: seq<Copy>, r: Queue) {
    exists k: nat, mid: Disk, done: Disk :: TurnBy(g, q, nodes, copies, k, mid, done, r)
  }

  class TxnManager {
    const dev: BlockDevice
    const journal: J.Journal
    const mode: Mode
    const buckets: array<seq<DirtyBlock>>
    ghost var staged: map<u64, DirtyBlock>
    var ndirty: nat
    var freezing: bool
    var runningHandles: nat
    var commitRequested: bool
    var generationSeq: u64
    var completedThrough: u64
    var ordered: seq<u64>
    var ckpt: seq<CommittedTxn>
    /** The commit thread's own: a snapshot it has taken and not finished with. */
    var inFlight: bool
    var taken: seq<DirtyBlock>
    var nordered: nat

    ghost predicate TableOk()
      reads this`staged, this`ndirty, buckets
    {
      && buckets.Length == BUCKETS
      && (forall h :: 0 <= h < BUCKETS ==> BucketOk(buckets[h], h, staged))
      && (forall b :: b in staged ==> staged[b].blockno == b && staged[b] in buckets[Hash(b)])
      && ndirty == |staged|
    }

    ghost predicate Valid()
      reads this, dev, journal, journal.dev, buckets
    {
      && journal.Valid() && journal.dev == dev
      && TableOk()
      && (forall b :: b in staged ==> b < |dev.disk.base|)
      && ListOnDisk(ckpt, |dev.disk.base|)
      && (forall b :: b in staged ==> staged[b] !in NodesOf(ckpt))
      && TakenOk()
    }

    /** What the thread has taken is on the device and in the table no more. */
    ghost predicate TakenOk()
      reads this`inFlight, this`taken, this`staged, dev
    {
      && (!inFlight ==> taken == [])
      && (forall k :: 0 <= k < |taken| ==> taken[k].blockno < |dev.disk.base|)
      && (forall b :: b in staged ==> staged[b] !in taken)
    }

    /** The list fills the log from tail to head, in the order of the numbers. */
    ghost predicate Tiled()
      reads this, journal
    {
      && |ckpt| <= journal.nextSequence
      && Tiles(Outline(ckpt), journal.tail, journal.nextSequence - |ckpt|)
      && journal.head == journal.tail + Span(Outline(ckpt))
      && Span(Outline(ckpt)) <= journal.g.maxlen
    }

    /** What a block reads as behind the staging table. */
    ghost function Behind(b: u64): Block
      requires b < |dev.disk.base|
      reads this, dev, NodesOf(ckpt)
    {
      BehindOf(Logged(ckpt), dev.disk, b)
    }

    /** The list, its content, the device and the cursor as they are. */
    ghost function Now(): (q: Queue)
      reads this, dev, journal, NodesOf(ckpt)
    {
      Queue(ckpt, Logged(ckpt), dev.disk, journal.head, journal.nextSequence)
    }

    constructor (journal: J.Journal, mode: Mode)
      requires journal.Valid()
      ensures Valid() && this.journal == journal && this.mode == mode && dev == journal.dev
      ensures staged == map[] && ckpt == [] && runningHandles == 0 && !freezing && !inFlight
      ensures generationSeq == journal.nextSequence && completedThrough == 0 && !commitRequested
      ensures ordered == [] && taken == [] && nordered == 0
      ensures fresh(buckets)
    {
      this.dev, this.journal, this.mode := journal.dev, journal, mode;
      staged, ndirty, freezing, runningHandles, commitRequested := map[], 0, false, 0, false;
      generationSeq, completedThrough, ordered, ckpt := journal.nextSequence, 0, [], [];
      inFlight, taken, nordered := false, [], 0;
      buckets := new seq<DirtyBlock>[BUCKETS](_ => []);
    }

    // ---- staging table ----

    method FindDirty(b: u64) returns (d: DirtyBlock?)
      requires Valid()
      ensures b in staged <==> d != null
      ensures d != null ==> d == staged[b]
    {
      var chain := buckets[Hash(b)];
      for i := 0 to |chain|
        invariant forall k :: 0 <= k < i ==> chain[k].blockno != b
      {
        if chain[i].blockno == b {
          return chain[i];
        }
      }
      d := null;
    }

    /** Scans oldest to newest and keeps overwriting: the newest copy wins. */
    method FindCheckpointed(b: u64) returns (found: DirtyBlock?)
      ensures found == null <==> NewestCopy(Logged(ckpt), b).None?
      ensures found != null ==> found.blockno == b && NewestCopy(Logged(ckpt), b) == Some(found.data)
    {
      found := null;
      for i := 0 to |ckpt|
        invariant found == null <==> NewestCopy(Logged(ckpt)[..i], b).None?
        invariant found != null ==> found.blockno == b && NewestCopy(Logged(ckpt)[..i], b) == Some(found.data)
      {
        var nodes := ckpt[i].nodes;
        ghost var before := found;
        for k := 0 to |nodes|
          invariant LastCopy(Contents(nodes)[..k], b).None? ==> found == before
          invariant LastCopy(Contents(nodes)[..k], b).Some? ==>
            (found != null && found.blockno == b && LastCopy(Contents(nodes)[..k], b) == Some(found.data))
        {
          assert Contents(nodes)[..k + 1][..k] == Contents(nodes)[..k];
          if nodes[k].blockno == b {
            found := nodes[k];
          }
        }
        assert Contents(nodes)[..|nodes|] == Contents(nodes);
        assert Logged(ckpt)[..i + 1] == Logged(ckpt)[..i] + [Logged(ckpt)[i]];
        NewestSnoc(Logged(ckpt)[..i], Logged(ckpt)[i], b);
      }
      assert Logged(ckpt)[..|ckpt|] == Logged(ckpt);
    }

    /** The checkpoint list first, the device as the last resort. */
    method ReadBehind(b: u64) returns (ok: bool, content: Block)
      requires Valid()
      ensures ok <==> b < |dev.disk.base|
      ensures ok ==> content == Behind(b)
    {
      hide View, NewestCopy;
      ghost var txns := Logged(ckpt);
      var d := FindCheckpointed(b);
      assert Logged(ckpt) == txns;
      if d != null {
        NewestOnDisk(ckpt, |dev.disk.base|, b);
        return true, d.data;
      }
      ok, content := dev.Read(b);
      assert Logged(ckpt) == txns;
    }

    /** Staged already, or staged now with the content the block has behind the table. */
    method FindOrCreateDirty(b: u64) returns (d: DirtyBlock?)
      requires Valid()
      modifies this`ndirty, this`staged, buckets
      ensures Valid()
      ensures d == null <==> b !in old(staged) && b >= |dev.disk.base|
      ensures d == null ==> staged == old(staged)
      ensures d != null ==> staged == old(staged)[b := d]
      ensures b in old(staged) ==> d == old(staged)[b] && buckets[..] == old(buckets[..]) && ndirty == old(ndirty)
      ensures b !in old(staged) && d != null ==> fresh(d) && d.data == old(Behind(b))
    {
      hide View, NewestCopy, TableOk, ListOnDisk, InRange, Fits, TakenOk, J.Journal.Valid;
      ghost var txns := Logged(ckpt);
      d := FindDirty(b);
      if d != null {
        return;
      }
      var ok, content := ReadBehind(b);
      if !ok {
        return null;
      }
      assert Logged(ckpt) == txns;
      d := AddDirty(b, content);
    }

    /** A block not staged gets its buffer. */
    method AddDirty(b: u64, content: Block) returns (d: DirtyBlock)
      requires Valid() && b !in staged && b < |dev.disk.base|
      modifies this`ndirty, this`staged, buckets
      ensures Valid() && staged == old(staged)[b := d] && fresh(d) && d.data == content
    {
      hide View, TableOk, ListOnDisk, InRange, Fits, J.Journal.Valid;
      d := new DirtyBlock(b, content);
      Insert(d);
    }

    /** Puts a new block at the front of its chain. */
    method Insert(d: DirtyBlock)
      requires TableOk() && d.blockno !in staged
      modifies this`ndirty, this`staged, buckets
      ensures TableOk() && staged == old(staged)[d.blockno := d]
    {
      var h := Hash(d.blockno);
      buckets[h] := [d] + buckets[h];
      staged := staged[d.blockno := d];
      ndirty := ndirty + 1;
    }

    /** One chain: its blocks go behind those already flattened, and there is room for them. */
    static method FlattenChain(before: seq<DirtyBlock>, chain: seq<DirtyBlock>, count: nat, h: nat,
                               ghost all: map<u64, DirtyBlock>)
      returns (arr: seq<DirtyBlock>)
      requires BucketOk(chain, h, all) && count == |all|
      requires Distinct(before) && StagedIn(before, all)
      requires forall i :: 0 <= i < |before| ==> Hash(before[i].blockno) < h
      ensures arr == before + chain && Distinct(arr) && StagedIn(arr, all) && |arr| <= count
    {
      hide Hash;
      arr := before;
      FlatRoom(arr, all);
      for k := 0 to |chain|
        invariant arr == before + chain[..k] && Distinct(arr) && StagedIn(arr, all) && |arr| <= count
      {
        NewToFlat(before, chain, k, h, all);
        FlatRoom(arr + [chain[k]], all);
        assert |arr| < count;
        arr := arr + [chain[k]];
      }
    }

    /** Detaches every staged block into one list; no bucket and no block is met twice. */
    method FlattenAndClear(count: nat) returns (arr: seq<DirtyBlock>)
      requires TableOk() && count == ndirty
      modifies this`staged, buckets
      ensures Lists(arr, old(staged)) && |arr| == count
      ensures staged == map[] && forall h :: 0 <= h < BUCKETS ==> buckets[h] == []
    {
      hide Hash;
      arr := [];
      for h := 0 to BUCKETS
        modifies buckets
        invariant forall k :: 0 <= k < h ==> buckets[k] == []
        invariant forall k :: h <= k < BUCKETS ==> BucketOk(buckets[k], k, staged)
        invariant Distinct(arr) && StagedIn(arr, staged)
        invariant forall i :: 0 <= i < |arr| ==> Hash(arr[i].blockno) < h
        invariant forall b :: b in staged ==> if Hash(b) < h then staged[b] in arr else staged[b] in buckets[Hash(b)]
      {
        var chain := buckets[h];
        ghost var before := arr;
        arr := FlattenChain(arr, chain, count, h, staged);
        assert forall d :: d in before || d in chain ==> d in arr;
        buckets[h] := [];
      }
      FlatAll(arr, staged);
      staged := map[];
    }

    // ---- reading ----

    /** The three-tier lookup. */
    method ReadBlock(b: u64) returns (ok: bool, content: Block)
      requires Valid()
      ensures ok <==> b < |dev.disk.base|
      ensures ok ==> content == if b in staged then staged[b].data else Behind(b)
    {
      hide View, NewestCopy;
      ghost var txns := Logged(ckpt);
      var d := FindDirty(b);
      if d != null {
        return true, d.data;
      }
      assert Logged(ckpt) == txns;
      ok, content := ReadBehind(b);
      assert Logged(ckpt) == txns;
    }

    // ---- handles ----

    /** Waits while the table is being frozen. */
    method Start()
      requires Valid() && !freezing
      modifies this`runningHandles
      ensures Valid() && runningHandles == old(runningHandles) + 1
    {
      runningHandles := runningHandles + 1;
    }

    method Stop()
      requires Valid() && runningHandles > 0
      modifies this`runningHandles
      ensures Valid() && runningHandles == old(runningHandles) - 1
    {
      runningHandles := runningHandles - 1;
    }

    lemma StagedNumbers()
      requires TableOk()
      ensures forall b :: b in staged ==> staged[b].blockno == b
    {}

    /** A whole block of file data in journal mode: staged like metadata. */
    method WriteStaged(b: u64, content: Block) returns (ok: bool)
      requires Valid()
      modifies this`ndirty, this`staged, buckets, staged.Values
      ensures Valid() && (ok <==> b < |dev.disk.base|)
      ensures ok ==> b in staged && staged[b].data == content && staged == old(staged)[b := staged[b]]
      ensures forall c :: c in old(staged) && c != b ==> old(staged)[c].data == old(staged[c].data)
      ensures b in old(staged) || !ok ==> staged == old(staged)
    {
      hide View, Hash, Fits, BucketOk, ListOnDisk, TableOk, NodesOf, InRange;
      StagedNumbers();
      var d := FindOrCreateDirty(b);
      if d == null {
        return false;
      }
      d.data := content;
      var again := DirtyMetadata(b);
      ok := true;
    }

    /** Confirms that the block is staged. */
    method DirtyMetadata(b: u64) returns (d: DirtyBlock?)
      requires Valid() && b in staged
      ensures d == staged[b]
    {
      d := FindDirty(b);
    }

    /** A whole block of file data in ordered mode: written at once and remembered. */
    method WriteOrdered(b: u64, content: Block) returns (ok: bool)
      requires Valid()
      modifies this`ordered, dev
      ensures Valid() && (ok <==> b < |dev.disk.base|)
      ensures ok ==> dev.disk == Do(old(dev.disk), Write(b, content)) && ordered == old(ordered) + [b]
      ensures !ok ==> dev.disk == old(dev.disk) && ordered == old(ordered)
    {
      hide View, Hash, BucketOk;
      ok := dev.WriteBlock(b, content);
      if ok {
        ordered := ordered + [b];
      }
    }

    method WriteData(b: u64, content: Block) returns (ok: bool)
      requires Valid()
      modifies this`ndirty, this`staged, this`ordered, buckets, dev, staged.Values
      ensures Valid() && (ok <==> b < |dev.disk.base|)
      ensures ok && mode == Journaled ==>
        (b in staged && staged[b].data == content && staged == old(staged)[b := staged[b]] && dev.disk == old(dev.disk))
      ensures ok && mode == Ordered ==>
        (dev.disk == Do(old(dev.disk), Write(b, content)) && ordered == old(ordered) + [b] && staged == old(staged))
      ensures mode == Ordered && b in old(staged) ==> old(staged)[b].data == old(staged[b].data)
      ensures forall c :: c in old(staged) && c != b ==> old(staged)[c].data == old(staged[c].data)
      ensures !ok ==> staged == old(staged) && dev.disk == old(dev.disk) && ordered == old(ordered)
    {
      match mode
      case Journaled => ok := WriteStaged(b, content);
      case Ordered => ok := WriteOrdered(b, content);
    }

    // ---- checkpoint ----

    /** Where the log begins once the oldest listed transaction is gone. */
    function NextTail(): u64
      requires |ckpt| > 0
      reads this, journal
    {
      if |ckpt| > 1 then ckpt[1].descOffset else journal.head
    }

    function NextTailSequence(): u64
      requires |ckpt| > 0
      reads this, journal
    {
      if |ckpt| > 1 then ckpt[1].sequence else journal.nextSequence
    }

    /** Writes the copies of one transaction home. */
    method InstallHome(nodes: seq<DirtyBlock>)
      requires dev.Valid() && forall k :: 0 <= k < |nodes| ==> nodes[k].blockno < |dev.disk.base|
      modifies dev
      ensures dev.Valid() && dev.disk == Run(old(dev.disk), InstallOps(Contents(nodes)))
    {
      hide View, InstallOps;
      ghost var before, copies := dev.disk, Contents(nodes);
      J.NoInstalls(before);
      for i := 0 to |nodes|
        invariant dev.Valid() && |dev.disk.base| == |before.base|
        invariant dev.disk == Run(before, InstallOps(copies[..i]))
        invariant forall n :: n in nodes ==> n.data == old(n.data)
      {
        var ok := dev.WriteBlock(nodes[i].blockno, nodes[i].data);
        J.InstallSnoc(before, copies[..i], copies[i]);
        assert copies[..i + 1] == copies[..i] + [copies[i]];
      }
      assert copies[..|nodes|] == copies;
    }

    /** Moves the oldest listed transaction home, and the tail of the log behind it. */
    method CheckpointOldest() returns (done: bool)
      requires Valid() && Tiled()
      modifies this`ckpt, dev, journal
      ensures |dev.disk.base| == |old(dev.disk).base| && Follows(old(dev.disk), dev.disk)
      ensures Valid() && Tiled() && done == (old(ckpt) != [])
      ensures !done ==> dev.disk == old(dev.disk) && ckpt == [] && journal.tail == old(journal.tail)
      ensures done ==>
        ckpt == old(ckpt)[1..] && journal.tail == old(NextTail()) && Checkpointed(old(ckpt), old(dev.disk))
      ensures journal.head == old(journal.head) && journal.nextSequence == old(journal.nextSequence)
      ensures forall b: u64 :: b < |dev.disk.base| && b != JSUPER ==> Behind(b) == old(Behind(b))
    {
      hide View, CheckpointOps, TableOk, Outline, ListOnDisk, Fits, InRange, Tiles, Span, BehindOf, Logged;
      hide Checkpointed;
      if ckpt == [] {
        return false;
      }
      ghost var list, before := ckpt, dev.disk;
      label Before: TakeOldest();
      assert forall n :: n in NodesOf(list) ==> n.data == old@Before(n.data);
      assert Logged(list) == old@Before(Logged(list));
      OldestAlike(list, before);
      done := true;
    }

    /** Takes the oldest transaction off the list and checkpoints it. */
    method TakeOldest()
      requires Valid() && Tiled() && ckpt != []
      modifies this`ckpt, dev, journal
      ensures Follows(old(dev.disk), dev.disk)
      ensures Valid() && Tiled() && ckpt == old(ckpt)[1..] && journal.tail == old(NextTail())
      ensures Checkpointed(old(ckpt), old(dev.disk))
      ensures journal.head == old(journal.head) && journal.nextSequence == old(journal.nextSequence)
    {
      hide View, CheckpointOps, TableOk, Outline, ListOnDisk, NodesOf, Fits, InRange, Tiles, Span;
      TileTail(ckpt, journal.tail, journal.head, journal.nextSequence - |ckpt|);
      ListTail(ckpt, |dev.disk.base|);
      var nodes, newTail, newSequence := ckpt[0].nodes, NextTail(), NextTailSequence();
      ckpt := ckpt[1..];
      MoveTail(nodes, newTail, newSequence);
    }

    /** The device work of a checkpoint: copies, flush, superblock. */
    method MoveTail(nodes: seq<DirtyBlock>, newTail: u64, newSequence: u64)
      requires Valid() && forall k :: 0 <= k < |nodes| ==> nodes[k].blockno < |dev.disk.base|
      modifies dev, journal
      ensures Follows(old(dev.disk), dev.disk)
      ensures Valid() && journal.tail == newTail
      ensures journal.head == old(journal.head) && journal.nextSequence == old(journal.nextSequence)
      ensures dev.disk == Run(old(dev.disk),
        CheckpointOps(journal.g, old(Contents(nodes)), newTail, newSequence, old(journal.head)))
    {
      hide View, InstallOps, TailSuper, CheckpointOps, TableOk, ListOnDisk, NodesOf, Fits, InRange;
      ghost var before, copies := dev.disk, Contents(nodes);
      InstallHome(nodes);
      dev.Fsync();
      journal.AdvanceTail(newTail, newSequence);
      CheckpointScriptOf(before, journal.g, copies, newTail, newSequence, journal.head, dev.disk);
      RunFollows(before, CheckpointOps(journal.g, copies, newTail, newSequence, journal.head));
    }

    // ---- commit ----

    lemma OldestAlike(list: seq<CommittedTxn>, before: Disk)
      requires list != [] && Checkpointed(list, before)
      ensures ReadsAlike(Logged(list), before, Logged(list[1..]), dev.disk)
    {
      hide CheckpointOps, Logged, ReadsAlike;
      LoggedAt(list, 0);
      NoneHome(journal.g, list, Logged(list), before, journal.head, journal.nextSequence);
      OneMoreHome(journal.g, list, Logged(list), before, journal.head, journal.nextSequence, 0, list, before, dev.disk);
      HomeAlike(journal.g, list, before, journal.head, journal.nextSequence, 1, list[1..], dev.disk);
    }

    /** What CheckpointOldest did, as one more entry gone home. */
    lemma OneMore(list: seq<CommittedTxn>, d: Disk, k: nat, rest: seq<CommittedTxn>, e: Disk)
      requires rest != [] && WentHome(journal.g, list, Logged(list), d, journal.head, journal.nextSequence, k, rest, e)
      requires Checkpointed(rest, e)
      ensures WentHome(journal.g, list, Logged(list), d, journal.head, journal.nextSequence, k + 1, rest[1..], dev.disk)
    {
      hide CheckpointOps, Logged;
      LoggedAt(list, k);
      OneMoreHome(journal.g, list, Logged(list), d, journal.head, journal.nextSequence, k, rest, e, dev.disk);
    }

    /** Checkpoints the oldest transactions until there is room or nothing left to reclaim. */
    method Reclaim(needed: nat) returns (ghost k: nat)
      requires Valid() && Tiled() && needed <= MAX_TAGS + 2
      modifies this`ckpt, dev, journal
      ensures |dev.disk.base| == |old(dev.disk).base| && Follows(old(dev.disk), dev.disk)
      ensures Valid() && Tiled()
      ensures journal.head == old(journal.head) && journal.nextSequence == old(journal.nextSequence)
      ensures WentHome(journal.g, old(ckpt), old(Logged(ckpt)), old(dev.disk), journal.head, journal.nextSequence, k,
                       ckpt, dev.disk)
      ensures NotSooner(old(ckpt), k, journal.g, needed) && NoLater(old(ckpt), k, journal.g, needed)
      ensures Logged(ckpt) == old(Logged(ckpt))[k..]
      ensures needed <= J.UnsignedFree(journal.g, journal.head, journal.tail) <==> needed <= journal.g.maxlen
      ensures old(J.UnsignedFree(journal.g, journal.head, journal.tail)) >= needed ==>
        (ckpt == old(ckpt) && dev.disk == old(dev.disk) && journal.tail == old(journal.tail))
      ensures ReadsAlike(old(Logged(ckpt)), old(dev.disk), Logged(ckpt), dev.disk)
      ensures forall b: u64 :: b < |dev.disk.base| && b != JSUPER ==> Behind(b) == old(Behind(b))
    {
      hide Outline, Tiles, Span, TableOk, ListOnDisk, InRange, View, J.UnsignedFree, BehindOf;
      hide Logged, WentHome, Checkpointed;
      k := 0;
      ghost var list, txns, d := ckpt, Logged(ckpt), dev.disk;
      LoggedAt(list, 0);
      NoneHome(journal.g, list, txns, d, journal.head, journal.nextSequence);
      FreeIs(ckpt, journal.g, journal.head, journal.tail, |dev.disk.base|);
      while J.UnsignedFree(journal.g, journal.head, journal.tail) < needed
        invariant Valid() && Tiled() && |dev.disk.base| == |d.base| && Logged(list) == txns
        invariant journal.head == old(journal.head) && journal.nextSequence == old(journal.nextSequence)
        invariant WentHome(journal.g, list, txns, d, journal.head, journal.nextSequence, k, ckpt, dev.disk)
        invariant NotSooner(list, k, journal.g, needed)
        invariant FreeFits(ckpt, journal.g, journal.head, journal.tail)
        invariant old(J.UnsignedFree(journal.g, journal.head, journal.tail)) >= needed ==>
          (k == 0 && dev.disk == d && journal.tail == old(journal.tail))
        decreases |ckpt|
      {
        ghost var rest, e := ckpt, dev.disk;
        FreeIs(ckpt, journal.g, journal.head, journal.tail, |dev.disk.base|);
        label Before: var done := CheckpointOldest();
        assert forall n :: n in NodesOf(list) ==> n.data == old@Before(n.data);
        assert Logged(list) == old@Before(Logged(list));
        FreeIs(ckpt, journal.g, journal.head, journal.tail, |dev.disk.base|);
        if !done {
          break;
        }
        assert Logged(list) == txns;
        RestIs(journal.g, list, txns, d, journal.head, journal.nextSequence, k, rest, e);
        OneMore(list, d, k, rest, e);
        k := k + 1;
      }
      HomeAlike(journal.g, list, d, journal.head, journal.nextSequence, k, ckpt, dev.disk);
      RestIs(journal.g, list, txns, d, journal.head, journal.nextSequence, k, ckpt, dev.disk);
      LoggedAt(list, k);
      FreeIs(ckpt, journal.g, journal.head, journal.tail, |dev.disk.base|);
    }

    /** The copies commit is given. */
    method Pending(nodes: seq<DirtyBlock>) returns (copies: seq<Copy>)
      ensures copies == Contents(nodes)
    {
      copies := [];
      for i := 0 to |nodes|
        invariant copies == Contents(nodes)[..i]
      {
        copies := copies + [Copy(nodes[i].blockno, nodes[i].data)];
      }
    }

    /**
     Commits one generation. Unless a counter would wrap, it fails only when the generation
     is too big for one descriptor or for the whole region, and then it is given up. The
     first k entries of the list go home first, which leaves the device at mid.
     */
    method DoCommit(nodes: seq<DirtyBlock>) returns (status: J.Status, ghost k: nat, ghost mid: Disk)
      requires Valid() && Tiled()
      requires forall i :: 0 <= i < |nodes| ==> nodes[i].blockno < |dev.disk.base|
      requires forall b :: b in staged ==> staged[b] !in nodes
      requires journal.nextSequence + 1 < U64 && journal.head + |nodes| + 2 < U64
      modifies this`ckpt, this`completedThrough, this`generationSeq, dev, journal
      ensures Valid() && Tiled() && Follows(old(dev.disk), dev.disk)
      ensures status == J.Done <==> |nodes| <= MAX_TAGS && |nodes| + 2 <= journal.g.maxlen
      ensures k <= |old(ckpt)|
      ensures WentHome(journal.g, old(ckpt), old(Logged(ckpt)), old(dev.disk),
                       old(journal.head), old(journal.nextSequence), k, old(ckpt)[k..], mid)
      ensures NotSooner(old(ckpt), k, journal.g, SpaceNeeded(|nodes|, 0))
      ensures NoLater(old(ckpt), k, journal.g, SpaceNeeded(|nodes|, 0))
      ensures |nodes| + 2 <= old(J.UnsignedFree(journal.g, journal.head, journal.tail)) ==> k == 0
      ensures status == J.Done ==>
        (ckpt == old(ckpt)[k..] + [CommittedTxn(old(journal.nextSequence), old(journal.head), nodes)]
         && journal.head == old(journal.head) + |nodes| + 2 && journal.nextSequence == old(journal.nextSequence) + 1
         && CommittedBy(mid, dev.disk, journal.g, old(journal.head), |ckpt| == 1,
                       J.TxnFor(old(journal.nextSequence), old(Contents(nodes)), [])))
      ensures status != J.Done ==>
        (ckpt == old(ckpt)[k..] && dev.disk == mid
         && journal.head == old(journal.head) && journal.nextSequence == old(journal.nextSequence))
      ensures completedThrough == old(generationSeq) && generationSeq == journal.nextSequence
      ensures Logged(ckpt) == old(Logged(ckpt))[k..]
              + if status == J.Done then [J.TxnFor(old(journal.nextSequence), old(Contents(nodes)), [])] else []
      ensures Overlays(journal.g, if status == J.Done then old(Contents(nodes)) else [],
                       old(Logged(ckpt)), old(dev.disk), Logged(ckpt), dev.disk)
    {
      hide Outline, Tiles, Span, TableOk, ListOnDisk, InRange, View, CommitOps, J.UnsignedFree, Fits, WentHome;
      hide Logged, BehindOf, Overlays, NotSooner, NoLater, ReadsAlike;
      ghost var list, before := ckpt, dev.disk;
      k := Reclaim(SpaceNeeded(|nodes|, 0));
      mid := dev.disk;
      RestIs(journal.g, list, old(Logged(ckpt)), before, journal.head, journal.nextSequence, k, ckpt, mid);
      ghost var rest := Logged(ckpt);
      var copies := Pending(nodes);
      assert forall n :: n in NodesOf(ckpt) ==> n.data == old(n.data);
      assert Logged(ckpt) == rest && copies == old(Contents(nodes));
      EmptySpan(ckpt);
      status := Publish(nodes, copies);
      AlikeOverlays(journal.g, if status == J.Done then copies else [], old(Logged(ckpt)), before, rest, mid,
                    Logged(ckpt), dev.disk);
      FollowsOn(before, mid, dev.disk);
      Complete();
    }

    /** The generation is done with; the next one gets the number of the next transaction. */
    method Complete()
      requires Valid() && Tiled()
      modifies this`completedThrough, this`generationSeq
      ensures Valid() && Tiled() && completedThrough == old(generationSeq) && generationSeq == journal.nextSequence
      ensures Logged(ckpt) == old(Logged(ckpt))
    {
      hide Outline, Tiles, Span, TableOk, ListOnDisk, InRange, View, Fits, Logged;
      completedThrough := generationSeq;
      generationSeq := journal.nextSequence;
      assert forall n :: n in NodesOf(ckpt) ==> n.data == old(n.data);
    }

    lemma PublishBehind(list: seq<CommittedTxn>, t: CommittedTxn, txns: seq<Txn>, copies: seq<Copy>, d: Disk,
                        g: Geometry, wasEmpty: bool)
      requires Logged(list) == txns && Contents(t.nodes) == copies && Fits(g, |d.base|)
      requires CommittedBy(d, dev.disk, g, t.descOffset, wasEmpty, J.TxnFor(t.sequence, copies, []))
      ensures Overlays(g, copies, txns, d, Logged(list + [t]), dev.disk) && Follows(d, dev.disk)
      ensures Logged(list + [t]) == txns + [J.TxnFor(t.sequence, copies, [])]
    {
      hide CommitOps, Logged, Overlays, Fits;
      var txn := J.TxnFor(t.sequence, copies, []);
      assert txn == Txn(t.sequence, copies, []);
      LoggedSnoc(list, t);
      CommitOverlays(txns, d, g, t.descOffset, wasEmpty, txn);
      RunFollows(d, CommitOps(g, t.descOffset, wasEmpty, txn));
    }

    /** The journal commit, and on success the entry on the checkpoint list. */
    method Publish(nodes: seq<DirtyBlock>, copies: seq<Copy>) returns (status: J.Status)
      requires Valid() && Tiled() && copies == Contents(nodes)
      requires forall k :: 0 <= k < |nodes| ==> nodes[k].blockno < |dev.disk.base|
      requires forall b :: b in staged ==> staged[b] !in nodes
      requires journal.nextSequence + 1 < U64 && journal.head + |nodes| + 2 < U64
      modifies this`ckpt, dev, journal
      ensures Valid() && Tiled() && Follows(old(dev.disk), dev.disk)
      ensures status == J.Done <==>
        |nodes| <= MAX_TAGS && |nodes| + 2 <= old(J.UnsignedFree(journal.g, journal.head, journal.tail))
      ensures status == J.Done ==>
        CommittedBy(old(dev.disk), dev.disk, journal.g, old(journal.head), old(journal.tail == journal.head),
                   J.TxnFor(old(journal.nextSequence), copies, []))
      ensures status == J.Done ==>
        ckpt == old(ckpt) + [CommittedTxn(old(journal.nextSequence), old(journal.head), nodes)]
      ensures status == J.Done ==> journal.head == old(journal.head) + |nodes| + 2
      ensures status == J.Done ==> journal.nextSequence == old(journal.nextSequence) + 1
      ensures status != J.Done ==> ckpt == old(ckpt) && dev.disk == old(dev.disk)
      ensures status != J.Done ==>
        journal.head == old(journal.head) && journal.nextSequence == old(journal.nextSequence)
      ensures Logged(ckpt)
           == old(Logged(ckpt)) + if status == J.Done then [J.TxnFor(old(journal.nextSequence), copies, [])] else []
      ensures Overlays(journal.g, if status == J.Done then copies else [], old(Logged(ckpt)), old(dev.disk),
                       Logged(ckpt), dev.disk)
    {
      hide Outline, Tiles, Span, TableOk, ListOnDisk, InRange, View, CommitOps, J.UnsignedFree, Fits, Body;
      hide Overlays, Logged;
      ghost var t, list, txns := CommittedTxn(journal.nextSequence, journal.head, nodes), ckpt, Logged(ckpt);
      TileSnoc(ckpt, journal.tail, journal.head, journal.nextSequence - |ckpt|, t);
      RoomFor(ckpt, journal.g, journal.head, journal.tail, |nodes|, |dev.disk.base|);
      NothingOver(journal.g, txns, dev.disk);
      var sequence, descOffset;
      status, sequence, descOffset := journal.Commit(copies, []);
      assert forall n :: n in NodesOf(list) ==> n.data == old(n.data);
      assert forall n :: n in nodes ==> n.data == old(n.data);
      assert Logged(list) == txns && Contents(nodes) == copies;
      if status == J.Done {
        J.TxnForEncodable(sequence, copies, []);
        PublishBehind(list, t, txns, copies, old(dev.disk), journal.g, old(journal.tail == journal.head));
        Enlist(CommittedTxn(sequence, descOffset, nodes));
      }
    }

    /** A new entry at the end of the checkpoint list. */
    method Enlist(t: CommittedTxn)
      requires Valid() && forall k :: 0 <= k < |t.nodes| ==> t.nodes[k].blockno < |dev.disk.base|
      requires forall b :: b in staged ==> staged[b] !in t.nodes
      modifies this`ckpt
      ensures Valid() && ckpt == old(ckpt) + [t] && Logged(ckpt) == old(Logged(ckpt + [t]))
    {
      hide TableOk, ListOnDisk, InRange, View, Fits, Logged;
      ListSnoc(ckpt, t, |dev.disk.base|);
      ckpt := ckpt + [t];
      assert forall n :: n in NodesOf(ckpt) ==> n.data == old(n.data);
    }

    /** As many of the oldest transactions go home as it takes to leave no more than may wait. */
    method EnforceLag()
      requires Valid() && Tiled()
      modifies this`ckpt, dev, journal
      ensures |dev.disk.base| == |old(dev.disk).base| && Follows(old(dev.disk), dev.disk)
      ensures Valid() && Tiled() && |ckpt| <= CKPT_LAG
      ensures WentHome(journal.g, old(ckpt), old(Logged(ckpt)), old(dev.disk), journal.head, journal.nextSequence,
                       Beyond(|old(ckpt)|), ckpt, dev.disk)
      ensures Logged(ckpt) == old(Logged(ckpt))[Beyond(|old(ckpt)|)..]
      ensures journal.head == old(journal.head) && journal.nextSequence == old(journal.nextSequence)
      ensures ReadsAlike(old(Logged(ckpt)), old(dev.disk), Logged(ckpt), dev.disk)
      ensures forall b: u64 :: b < |dev.disk.base| && b != JSUPER ==> Behind(b) == old(Behind(b))
    {
      hide Outline, Tiles, Span, TableOk, ListOnDisk, InRange, View, BehindOf, Logged, WentHome, Checkpointed;
      ghost var k: nat := 0;
      ghost var list, txns, d := ckpt, Logged(ckpt), dev.disk;
      LoggedAt(list, 0);
      NoneHome(journal.g, list, txns, d, journal.head, journal.nextSequence);
      while |ckpt| > CKPT_LAG
        invariant Valid() && Tiled() && |dev.disk.base| == |d.base| && Logged(list) == txns
        invariant journal.head == old(journal.head) && journal.nextSequence == old(journal.nextSequence)
        invariant WentHome(journal.g, list, txns, d, journal.head, journal.nextSequence, k, ckpt, dev.disk)
        invariant |ckpt| == |list| - k && (k == 0 || |ckpt| >= CKPT_LAG)
        decreases |ckpt|
      {
        ghost var rest, e := ckpt, dev.disk;
        label Before: var done := CheckpointOldest();
        assert forall n :: n in NodesOf(list) ==> n.data == old@Before(n.data);
        assert Logged(list) == old@Before(Logged(list));
        assert Logged(list) == txns;
        OneMore(list, d, k, rest, e);
        k := k + 1;
      }
      HomeAlike(journal.g, list, d, journal.head, journal.nextSequence, k, ckpt, dev.disk);
      RestIs(journal.g, list, txns, d, journal.head, journal.nextSequence, k, ckpt, dev.disk);
      LoggedAt(list, k);
    }

    /** Everything goes home before the thread ends: a clean unmount leaves an empty log. */
    method Drain()
      requires Valid() && Tiled()
      modifies this`ckpt, dev, journal
      ensures |dev.disk.base| == |old(dev.disk).base| && Follows(old(dev.disk), dev.disk)
      ensures Valid() && Tiled() && ckpt == [] && journal.tail == journal.head
      ensures WentHome(journal.g, old(ckpt), old(Logged(ckpt)), old(dev.disk), journal.head, journal.nextSequence,
                       |old(ckpt)|, [], dev.disk)
      ensures journal.head == old(journal.head) && journal.nextSequence == old(journal.nextSequence)
      ensures forall b: u64 :: b < |dev.disk.base| && b != JSUPER ==> View(dev.disk, b) == old(Behind(b))
    {
      hide Outline, Tiles, Span, TableOk, ListOnDisk, InRange, View, BehindOf, Logged, WentHome, Checkpointed;
      ghost var k: nat := 0;
      ghost var list, txns, d := ckpt, Logged(ckpt), dev.disk;
      LoggedAt(list, 0);
      NoneHome(journal.g, list, txns, d, journal.head, journal.nextSequence);
      while true
        invariant Valid() && Tiled() && |dev.disk.base| == |d.base| && Logged(list) == txns
        invariant journal.head == old(journal.head) && journal.nextSequence == old(journal.nextSequence)
        invariant WentHome(journal.g, list, txns, d, journal.head, journal.nextSequence, k, ckpt, dev.disk)
        decreases |ckpt|
      {
        ghost var rest, e := ckpt, dev.disk;
        label Before: var done := CheckpointOldest();
        assert forall n :: n in NodesOf(list) ==> n.data == old@Before(n.data);
        assert Logged(list) == old@Before(Logged(list));
        if !done {
          break;
        }
        OneMore(list, d, k, rest, e);
        k := k + 1;
      }
      EmptySpan(ckpt);
      HomeAlike(journal.g, list, d, journal.head, journal.nextSequence, k, ckpt, dev.disk);
      RestIs(journal.g, list, txns, d, journal.head, journal.nextSequence, k, ckpt, dev.disk);
      NothingBehind(ckpt);
    }

    /** The device went from e on by the checkpoint of the oldest of rest. */
    ghost predicate Checkpointed(rest: seq<CommittedTxn>, e: Disk)
      requires rest != []
      reads this, dev, journal, rest[0].nodes
    {
      dev.disk == Run(e, CheckpointOps(journal.g, Contents(rest[0].nodes),
                   if |rest| > 1 then rest[1].descOffset else journal.head,
                   if |rest| > 1 then rest[1].sequence else journal.nextSequence, journal.head))
    }

    lemma EmptyTable()
      requires buckets.Length == BUCKETS && staged == map[] && ndirty == 0
      requires forall h :: 0 <= h < BUCKETS ==> buckets[h] == []
      ensures TableOk()
    {}

    lemma TableNumbers()
      requires TableOk()
      ensures buckets.Length == BUCKETS && ndirty == |staged| && forall b :: b in staged ==> staged[b].blockno == b
    {}

    /** All staged blocks leave the table. */
    method TakeTable() returns (nodes: seq<DirtyBlock>)
      requires TableOk()
      modifies this`staged, this`ndirty, buckets
      ensures TableOk() && staged == map[] && ndirty == 0
      ensures Lists(nodes, old(staged)) && |nodes| == old(ndirty)
    {
      hide Hash;
      nodes := FlattenAndClear(ndirty);
      ndirty := 0;
      EmptyTable();
    }

    /** The snapshot: all staged blocks leave the table, and handles may start again. */
    method Freeze()
      requires Valid() && runningHandles == 0 && !inFlight
      modifies this`staged, this`ndirty, this`ordered, this`commitRequested, this`freezing, buckets
      modifies this`inFlight, this`taken, this`nordered
      ensures Valid() && inFlight && Lists(taken, old(staged)) && |taken| == old(ndirty) && nordered == |old(ordered)|
      ensures staged == map[] && ndirty == 0 && ordered == [] && !commitRequested && !freezing
    {
      hide Hash, ListOnDisk, InRange, View, Fits, NodesOf, TableOk, Lists, J.Journal.Valid;
      TableNumbers();
      freezing := true;
      taken := TakeTable();
      ListedOnDisk(taken, old(staged), |dev.disk.base|);
      inFlight := true;
      nordered := |ordered|;
      ordered := [];
      commitRequested := false;
      freezing := false;
    }

    /** Data written directly becomes durable before the commit block of its generation. */
    method Force()
      requires Valid() && Tiled() && inFlight
      modifies dev
      ensures Valid() && Tiled() && dev.disk == old(TakenForced())
    {
      hide Outline, Tiles, Span, ListOnDisk, NodesOf, InRange, View, TableOk, Fits;
      if mode == Ordered && nordered > 0 {
        dev.Fsync();
      }
    }

    /** The device once the ordered data of the generation in flight is durable. */
    ghost function TakenForced(): (d: Disk)
      reads this`nordered, dev
      ensures d.base == dev.disk.base
    {
      if mode == Ordered && nordered > 0 then Do(dev.disk, Flush) else dev.disk
    }

    /** Commits what the snapshot took, if anything. */
    method CommitTaken() returns (ghost k: nat, ghost mid: Disk)
      requires Valid() && Tiled() && inFlight && generationSeq == journal.nextSequence
      requires journal.nextSequence + 1 < U64 && journal.head + |taken| + 2 < U64
      modifies this`ckpt, this`completedThrough, this`generationSeq, dev, journal
      ensures Valid() && Tiled() && Follows(old(dev.disk), dev.disk)
      ensures completedThrough == old(generationSeq) && generationSeq == journal.nextSequence
      ensures journal.nextSequence == old(journal.nextSequence) + if FitsLog(journal.g, |old(taken)|) then 1 else 0
      ensures HomeFirst(journal.g, old(Now()), old(taken), k, mid)
      ensures CommitsAt(journal.g, old(Now()), old(taken), old(Contents(taken)), k, mid, dev.disk)
      ensures Now() == Listed(journal.g, old(Now()), old(taken), old(Contents(taken)), k, dev.disk)
      ensures Overlays(journal.g, if FitsLog(journal.g, |old(taken)|) then old(Contents(taken)) else [],
                       old(Logged(ckpt)), old(dev.disk), Logged(ckpt), dev.disk)
    {
      hide Outline, Tiles, Span, ListOnDisk, InRange, View, CommitOps, J.UnsignedFree, Fits, TableOk;
      hide Overlays, ReadsAlike, Logged, WentHome, NotSooner, NoLater, BehindOf, CommittedBy;
      ghost var q := Now();
      k, mid := 0, q.disk;
      if |taken| > 0 {
        var status;
        status, k, mid := DoCommit(taken);
      } else {
        NothingOver(journal.g, q.txns, q.disk);
        NoneHome(journal.g, q.list, q.txns, q.disk, q.head, q.next);
        completedThrough := generationSeq;
        assert forall n :: n in NodesOf(ckpt) ==> n.data == old(n.data);
        assert Logged(ckpt) == q.txns && q.list[0..] == q.list && q.txns[0..] == q.txns;
      }
    }

    /** Commits what the snapshot took, if anything, and keeps the list short. */
    method Finish()
      requires Valid() && Tiled() && inFlight && generationSeq == journal.nextSequence
      requires journal.nextSequence + 1 < U64 && journal.head + |taken| + 2 < U64
      modifies this`ckpt, this`completedThrough, this`generationSeq, this`inFlight, this`taken, dev, journal
      ensures Valid() && Tiled() && !inFlight && taken == [] && |ckpt| <= CKPT_LAG
      ensures completedThrough == old(generationSeq) && generationSeq == journal.nextSequence
      ensures journal.nextSequence == old(journal.nextSequence) + if FitsLog(journal.g, |old(taken)|) then 1 else 0
      ensures Turned(journal.g, old(Now()), old(taken), old(Contents(taken)), Now())
      ensures Follows(old(dev.disk), dev.disk)
      ensures Overlays(journal.g, if FitsLog(journal.g, |old(taken)|) then old(Contents(taken)) else [],
                       old(Logged(ckpt)), old(dev.disk), Logged(ckpt), dev.disk)
    {
      hide Outline, Tiles, Span, ListOnDisk, InRange, View, Fits, TableOk;
      hide Overlays, Logged, WentHome, HomeFirst, CommitsAt, ReadsAlike, Listed;
      ghost var q, nodes, copies := Now(), taken, Contents(taken);
      ghost var k, mid := CommitTaken();
      ghost var s := Now();
      EnforceLag();
      FollowsOn(q.disk, s.disk, dev.disk);
      OverlaysAlike(journal.g, if FitsLog(journal.g, |nodes|) then copies else [],
                    q.txns, q.disk, s.txns, s.disk, Logged(ckpt), dev.disk);
      PutDown();
      assert TurnBy(journal.g, q, nodes, copies, k, mid, s.disk, Now());
    }

    /** The turn is over. */
    method PutDown()
      requires Valid() && Tiled()
      modifies this`inFlight, this`taken
      ensures Valid() && Tiled() && !inFlight && Logged(ckpt) == old(Logged(ckpt))
    {
      hide Outline, Tiles, Span, TableOk, ListOnDisk, InRange, View, Fits, Logged;
      inFlight, taken := false, [];
      assert forall n :: n in NodesOf(ckpt) ==> n.data == old(n.data);
    }

    /**
     The rest of a turn, from the snapshot on: the taken blocks are committed if they fit, and
     what is staged by now stays so.
     */
    method EndTurn()
      requires Valid() && Tiled() && inFlight && generationSeq == journal.nextSequence
      requires journal.nextSequence + 1 < U64 && journal.head + |taken| + 2 < U64
      modifies this`ckpt, this`completedThrough, this`generationSeq, this`inFlight, this`taken, dev, journal
      ensures Valid() && Tiled() && !inFlight && taken == [] && |ckpt| <= CKPT_LAG
      ensures completedThrough == old(generationSeq) && generationSeq == journal.nextSequence
      ensures journal.nextSequence == old(journal.nextSequence) + if FitsLog(journal.g, |old(taken)|) then 1 else 0
      ensures Turned(journal.g, old(Now()).(disk := old(TakenForced())), old(taken), old(Contents(taken)), Now())
      ensures Follows(old(TakenForced()), dev.disk)
      ensures Overlays(journal.g, if FitsLog(journal.g, |old(taken)|) then old(Contents(taken)) else [],
                       old(Logged(ckpt)), old(dev.disk), Logged(ckpt), dev.disk)
    {
      hide Outline, Tiles, Span, ListOnDisk, InRange, View, Fits, TableOk, Logged, BehindOf, Overlays, ReadsAlike;
      hide Turned;
      ghost var txns, before, nodes := Logged(ckpt), dev.disk, taken;
      ghost var copies := Contents(taken);
      Force();
      ghost var forced := dev.disk;
      ForceAlike(txns, before);
      assert forall n :: n in NodesOf(ckpt) ==> n.data == old(n.data);
      assert forall n :: n in nodes ==> n.data == old(n.data);
      assert Logged(ckpt) == txns && Contents(taken) == copies;
      Finish();
      AlikeOverlays(journal.g, if FitsLog(journal.g, |nodes|) then copies else [],
                    txns, before, txns, forced, Logged(ckpt), dev.disk);
    }

    /**
     Asks for a commit and waits until the number of the generation running now is completed.
     Called while the thread is between turns it waits for a whole one, and then everything
     that was staged and fits is committed. Called while a generation is in flight it waits
     for that one only: what has been staged since the snapshot is still staged. If the number
     is completed already nothing happens but the request, whatever is staged.
     */
    method Sync() returns (waited: bool, ghost nodes: seq<DirtyBlock>)
      requires Valid() && Tiled() && (inFlight || runningHandles == 0) && generationSeq == journal.nextSequence
      requires journal.nextSequence + 1 < U64 && journal.head + (if inFlight then |taken| else ndirty) + 2 < U64
      modifies this`staged, this`ndirty, this`freezing, this`commitRequested, this`generationSeq, this`completedThrough
      modifies this`ordered, this`ckpt, this`inFlight, this`taken, this`nordered, buckets, dev, journal
      ensures Valid() && Tiled() && generationSeq == journal.nextSequence
      ensures waited == (old(completedThrough) < old(generationSeq))
      ensures !waited ==> unchanged(buckets, dev, journal) && commitRequested
      ensures !waited ==> unchanged(`staged, `ndirty, `freezing, `generationSeq, `completedThrough, `ordered, `ckpt,
                                    `inFlight, `taken, `nordered)
      ensures waited ==> completedThrough == old(generationSeq) && !inFlight && taken == [] && |ckpt| <= CKPT_LAG
      ensures waited && old(inFlight) ==> unchanged(buckets) && nodes == old(taken) && commitRequested
      ensures waited && old(inFlight) ==> unchanged(`staged, `ndirty, `freezing, `ordered, `nordered)
      ensures waited && !old(inFlight) ==> Lists(nodes, old(staged)) && staged == map[] && ndirty == 0
      ensures waited && !old(inFlight) ==> ordered == [] && !freezing && !commitRequested
      ensures waited ==>
        Turned(journal.g, old(Now()).(disk := if old(inFlight) then old(TakenForced()) else old(ForcedDisk())),
               nodes, Contents(nodes), Now())
      ensures waited ==> TurnShows(old(inFlight), old(taken), old(staged), old(ndirty), old(Logged(ckpt)),
              old(dev.disk))
    {
      hide Outline, Tiles, Span, ListOnDisk, InRange, View, Fits, TableOk, Lists, Logged, BehindOf, Turned;
      hide TakenOk, TurnShows;
      ghost var start := Now().(disk := if inFlight then TakenForced() else ForcedDisk());
      var target := generationSeq;
      commitRequested := true;
      waited := false;
      nodes := [];
      assert forall n :: n in NodesOf(ckpt) ==> n.data == old(n.data);
      while completedThrough < target
        invariant Valid() && Tiled() && generationSeq == journal.nextSequence
        invariant waited ==> completedThrough == target && old(completedThrough) < target
        invariant waited ==> !inFlight && taken == [] && |ckpt| <= CKPT_LAG
        invariant waited && old(inFlight) ==> unchanged(buckets) && nodes == old(taken) && commitRequested
        invariant waited && old(inFlight) ==> unchanged(`staged, `ndirty, `freezing, `ordered, `nordered)
        invariant waited && !old(inFlight) ==> Lists(nodes, old(staged)) && staged == map[] && ndirty == 0
        invariant waited && !old(inFlight) ==> ordered == [] && !freezing && !commitRequested
        invariant waited ==> Turned(journal.g, start, nodes, Contents(nodes), Now())
        invariant waited ==> TurnShows(old(inFlight), old(taken), old(staged), old(ndirty), start.txns, old(dev.disk))
        invariant !waited ==> unchanged(buckets, dev, journal) && commitRequested
        invariant !waited ==> unchanged(`staged, `ndirty, `freezing, `generationSeq, `completedThrough, `ordered,
                                        `ckpt, `inFlight, `taken, `nordered)
        invariant !waited ==> start == Now().(disk := if inFlight then TakenForced() else ForcedDisk())
        decreases !waited
      {
        nodes := OneTurn();
        waited := true;
      }
    }

    /** The thread ends the turn it is in, or does a whole one. */
    method OneTurn() returns (ghost nodes: seq<DirtyBlock>)
      requires Valid() && Tiled() && (inFlight || runningHandles == 0) && generationSeq == journal.nextSequence
      requires journal.nextSequence + 1 < U64 && journal.head + (if inFlight then |taken| else ndirty) + 2 < U64
      modifies this`staged, this`ndirty, this`freezing, this`commitRequested, this`generationSeq, this`completedThrough
      modifies this`ordered, this`ckpt, this`inFlight, this`taken, this`nordered, buckets, dev, journal
      ensures Valid() && Tiled() && !inFlight && taken == [] && |ckpt| <= CKPT_LAG
      ensures completedThrough == old(generationSeq) && generationSeq == journal.nextSequence
      ensures old(inFlight) ==> unchanged(buckets) && nodes == old(taken)
      ensures old(inFlight) ==> unchanged(`staged, `ndirty, `freezing, `commitRequested, `ordered, `nordered)
      ensures !old(inFlight) ==> Lists(nodes, old(staged)) && staged == map[] && ndirty == 0
      ensures !old(inFlight) ==> ordered == [] && !freezing && !commitRequested
      ensures Turned(journal.g, old(Now()).(disk := if old(inFlight) then old(TakenForced()) else old(ForcedDisk())),
                     nodes, Contents(nodes), Now())
      ensures TurnShows(old(inFlight), old(taken), old(staged), old(ndirty), old(Logged(ckpt)), old(dev.disk))
    {
      hide Outline, Tiles, Span, ListOnDisk, InRange, View, Fits, TableOk, Lists, Logged, BehindOf, Turned;
      hide TakenOk, Overlays, NodesOf;
      if inFlight {
        ghost var copies := Contents(taken);
        nodes := taken;
        EndTurn();
        assert forall n :: n in nodes ==> n.data == old(n.data);
        assert Contents(nodes) == copies;
        SameBase(journal.g, if FitsLog(journal.g, |nodes|) then copies else [],
                 old(Logged(ckpt)), old(dev.disk), Logged(ckpt), dev.disk);
      } else {
        nodes := Cycle();
      }
    }

    /**
     Behind the table, the blocks of one generation have changed to what it holds, if it fits,
     and no other block: the generation that was in flight, or else everything staged.
     */
    ghost predicate TurnShows(flying: bool, nodes: seq<DirtyBlock>, table: map<u64, DirtyBlock>, n: nat,
                              txns: seq<Txn>, d: Disk)
      reads this, dev, journal, NodesOf(ckpt), nodes, table.Values
    {
      |dev.disk.base| == |d.base|
      && if flying then
           Overlays(journal.g, if FitsLog(journal.g, |nodes|) then Contents(nodes) else [], txns, d,
                    Logged(ckpt), dev.disk)
         else forall b: u64 :: IsHome(journal.g, |d.base|, b) ==>
           (Behind(b) == if FitsLog(journal.g, n) && b in table then table[b].data else BehindOf(txns, d, b))
    }

    /**
     One turn of the commit thread, once no handle is running. After it a sync waits if and
     only if the turn committed something: with nothing staged, and also with a generation
     given up, the next sync returns at once, whatever has been staged by then.
     */
    method Cycle() returns (ghost nodes: seq<DirtyBlock>)
      requires Valid() && Tiled() && runningHandles == 0 && !inFlight && generationSeq == journal.nextSequence
      requires journal.nextSequence + 1 < U64 && journal.head + ndirty + 2 < U64
      modifies this`staged, this`ndirty, this`freezing, this`commitRequested, this`generationSeq, this`completedThrough
      modifies this`ordered, this`ckpt, this`inFlight, this`taken, this`nordered, buckets, dev, journal
      ensures Valid() && Tiled() && !inFlight && taken == [] && |ckpt| <= CKPT_LAG
      ensures staged == map[] && ndirty == 0 && ordered == [] && !freezing && !commitRequested
      ensures completedThrough == old(generationSeq)
      ensures generationSeq == journal.nextSequence
           == old(journal.nextSequence) + if FitsLog(journal.g, old(ndirty)) then 1 else 0
      ensures completedThrough < generationSeq <==> FitsLog(journal.g, old(ndirty))
      ensures Lists(nodes, old(staged)) && |nodes| == old(ndirty)
      ensures Turned(journal.g, old(Now()).(disk := old(ForcedDisk())), nodes, Contents(nodes), Now())
      ensures Follows(old(ForcedDisk()), dev.disk)
      ensures forall b: u64 :: IsHome(journal.g, |dev.disk.base|, b) ==>
        (Behind(b)
         == if FitsLog(journal.g, old(ndirty)) && b in old(staged) then old(staged[b].data) else old(Behind(b)))
    {
      hide Outline, Tiles, Span, ListOnDisk, InRange, View, Fits, TableOk, Lists, Logged, BehindOf, Overlays, IsHome;
      hide ReadsAlike, Turned;
      StagedNumbers();
      ghost var txns, table, before := Logged(ckpt), staged, dev.disk;
      Freeze();
      nodes := taken;
      assert forall n :: n in NodesOf(ckpt) ==> n.data == old(n.data);
      assert Logged(ckpt) == txns && TakenForced() == old(ForcedDisk());
      label Taken: EndTurn();
      assert forall n :: n in nodes ==> n.data == old@Taken(n.data);
      assert Contents(nodes) == old@Taken(Contents(nodes));
      CycleBehind(journal.g, nodes, table, FitsLog(journal.g, |nodes|), txns, before, Logged(ckpt), dev.disk);
    }

    /** The device once the ordered data of the running generation is durable. */
    ghost function ForcedDisk(): (d: Disk)
      reads this`ordered, dev
      ensures d.base == dev.disk.base
    {
      if mode == Ordered && ordered != [] then Do(dev.disk, Flush) else dev.disk
    }
  }

  /** A flush changes nothing for readers. */
  lemma ForceAlike(txns: seq<Txn>, d: Disk)
    ensures ReadsAlike(txns, d, txns, d) && ReadsAlike(txns, d, txns, Do(d, Flush))
  {
    hide View;
    forall b: nat | b < |d.base| ensures View(Do(d, Flush), b) == View(d, b) {
      DoView(d, Flush, b);
    }
  }

  lemma ListedOnDisk(nodes: seq<DirtyBlock>, staged: map<u64, DirtyBlock>, nblocks: nat)
    requires Lists(nodes, staged) && forall b :: b in staged ==> b < nblocks
    ensures forall k :: 0 <= k < |nodes| ==> nodes[k].blockno < nblocks
  {}

  /** A snapshot holds the content of every staged block once. */
  lemma {:induction false} ListedCopy(nodes: seq<DirtyBlock>, staged: map<u64, DirtyBlock>, b: u64)
    requires Lists(nodes, staged) && forall c :: c in staged ==> staged[c].blockno == c
    ensures LastCopy(Contents(nodes), b) == if b in staged then Some(staged[b].data) else None
  {
    var copies := Contents(nodes);
    LastCopyIndex(copies, b);
    if b in staged {
      var i :| 0 <= i < |nodes| && nodes[i] == staged[b];
      assert copies[i] == Copy(b, staged[b].data);
    }
    if LastCopy(copies, b).Some? {
      var k := LastIndex(copies, b);
      assert copies[k].target == nodes[k].blockno;
    }
  }

  lemma CycleBehind(g: Geometry, nodes: seq<DirtyBlock>, staged: map<u64, DirtyBlock>, fits: bool,
                    txns: seq<Txn>, d: Disk, after: seq<Txn>, e: Disk)
    requires Lists(nodes, staged) && forall c :: c in staged ==> staged[c].blockno == c
    requires Overlays(g, if fits then Contents(nodes) else [], txns, d, after, e)
    ensures forall b: u64 :: IsHome(g, |d.base|, b) ==>
              (b < |d.base| == |e.base|
               && BehindOf(after, e, b) == if fits && b in staged then staged[b].data else BehindOf(txns, d, b))
  {
    hide BehindOf, Lists;
    forall b: u64 | IsHome(g, |d.base|, b)
      ensures b < |d.base| == |e.base|
      ensures BehindOf(after, e, b) == if fits && b in staged then staged[b].data else BehindOf(txns, d, b)
    {
      ListedCopy(nodes, staged, b);
    }
  }

  /** Commit's own space check after the reclaim loop. */
  lemma RoomFor(list: seq<CommittedTxn>, g: Geometry, head: u64, tail: u64, n: nat, nblocks: nat)
    requires head == tail + Span(Outline(list)) && Span(Outline(list)) <= g.maxlen && Fits(g, nblocks)
    ensures SpaceNeeded(n, 0) <= J.UnsignedFree(g, head, tail) && n <= MAX_TAGS ==>
            Span(Outline(list)) + n + 2 <= g.maxlen
  {
    FreeIs(list, g, head, tail, nblocks);
  }

  ghost predicate FreeFits(list: seq<CommittedTxn>, g: Geometry, head: u64, tail: u64) {
    && J.UnsignedFree(g, head, tail) <= g.maxlen
    && (list == [] ==> J.UnsignedFree(g, head, tail) == g.maxlen)
  }

  /** A tiled list leaves the region less its span; an empty one leaves all of it. */
  lemma FreeIs(list: seq<CommittedTxn>, g: Geometry, head: u64, tail: u64, nblocks: nat)
    requires head == tail + Span(Outline(list)) && Span(Outline(list)) <= g.maxlen && Fits(g, nblocks)
    ensures FreeFits(list, g, head, tail)
    ensures J.UnsignedFree(g, head, tail) == g.maxlen - Span(Outline(list))
  {
    EmptySpan(list);
    J.FreeSpaceAgrees(g, head, tail);
  }
}
