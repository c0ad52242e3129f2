/**
 What readers see. The staging table, what is in flight and the logical disk make one
 last-write-wins map; the three-tier lookup agrees with it except where a block is in
 flight and the code looks past it.
 */
module Lookup {
  import opened Bytes
  import opened DiskFormat
  import opened Device
  import opened LogFormat
  import opened Replay
  import opened CrashSafety
  import opened Checkpoint
  import opened Pipeline
  import opened PipelineJournal
  import opened PipelineInv
  import opened LogicalDisk
  import opened CrashRuns
  import opened Generations
  import opened Reclaim

  /** Block b with every layer in place: staged, on the way to the journal, committed, home. */
  function Layered(s: Sys, b: nat): Block
    requires Shaped(s) && LiveBufsIn(s) && b < |s.disk.base|
  {
    if b < U64 && b in s.staged then s.bufs[s.staged[b]] else LogicalAfter(s, b)
  }

  /**
   The window: b is not staged, and its newest copy is on its way to the journal, or has left
   the checkpoint list for home and has not been written there.
   */
  ghost predicate Hidden(s: Sys, b: nat)
    requires Shaped(s)
  {
    && !(b < U64 && b in s.staged)
    && (LastCopy(CopiesOnTheWay(s), b).Some?
        || (LastCopy(CopiesLeft(s), b).Some? && FindCheckpointed(s.bufs, s.ckpt, b).None?))
  }

  lemma {:induction false} CkptNewest(s: Sys, b: nat)
    requires Shaped(s) && LiveBufsIn(s)
    ensures FindCheckpointed(s.bufs, s.ckpt, b).Some? ==>
            NewestCopy(LiveTxns(s), b) == FindCheckpointed(s.bufs, s.ckpt, b)
    ensures FindCheckpointed(s.bufs, s.ckpt, b).None? ==> NewestCopy(LiveTxns(s), b) == LastCopy(GoingHome(s), b)
  {
    hide PhysOf, Shaped;
    ShapedLists(s);
    FindIsNewest(s.bufs, s.ckpt, b);
    if s.pc.Checkpointing? {
      ShapedTxn(s);
      var t := TxnOf(s.bufs, s.pc.txn.sequence, s.pc.txn.nodes);
      assert LiveTxns(s) == [t] + TxnsOf(s.bufs, s.ckpt);
      NewestCons(t, TxnsOf(s.bufs, s.ckpt), b);
    } else {
      assert LiveTxns(s) == TxnsOf(s.bufs, s.ckpt);
    }
  }

  lemma ShapedLists(s: Sys)
    requires Shaped(s)
    ensures AllBufsIn(s.ckpt, |s.bufs|) && Fits(s.g, |s.disk.base|)
    ensures forall b :: b in s.staged ==> s.staged[b] < |s.bufs|
  {
    hide PhysOf;
  }

  /** A copy that is not left has been written home, if no crash and no one else interferes. */
  lemma {:induction false} WrittenHome(s: Sys, b: nat)
    requires Shaped(s) && b < |s.disk.base| && HomeOk(s, b) && LastCopy(CopiesLeft(s), b).None?
    ensures LastCopy(GoingHome(s), b).Some? ==> LastCopy(GoingHome(s), b).value == View(s.disk, b)
  {
    hide PhysOf, Shaped, Settled, View;
    if s.pc.Checkpointing? {
      ShapedTxn(s);
      var copies, k := GoingHome(s), s.pc.done;
      if k <= |copies| {
        assert copies[k..] == CopiesLeft(s) && copies == copies[..k] + copies[k..];
        LastCopyConcat(copies[..k], copies[k..], b);
      }
    }
  }

  /** The lookup and the seed of a new buffer return the layered value unless it is hidden. */
  lemma {:induction false} ReadIsLayered(s: Sys, b: u64)
    requires Shaped(s) && LiveBufsIn(s) && b < |s.disk.base| && !Hidden(s, b)
    requires FindCheckpointed(s.bufs, s.ckpt, b).None? ==> HomeOk(s, b)
    ensures AllBufsIn(s.ckpt, |s.bufs|) && (b in s.staged ==> s.staged[b] < |s.bufs|)
    ensures ReadBlock(s, b) == Layered(s, b)
    ensures b !in s.staged ==> Seed(s, b) == Layered(s, b)
  {
    hide PhysOf, View, Shaped, LiveBufsIn, CopiesOnTheWay, CopiesLeft, GoingHome, LiveTxns, HomeOk;
    ShapedLists(s);
    CkptNewest(s, b);
    if b !in s.staged && FindCheckpointed(s.bufs, s.ckpt, b).None? {
      WrittenHome(s, b);
    }
  }

  /** With nothing in flight nothing is hidden. */
  lemma NothingHidden(s: Sys, b: nat)
    requires Shaped(s) && PcNodes(s) == [] && !s.pc.Checkpointing?
    ensures !Hidden(s, b)
  {
    hide PhysOf, Shaped;
    assert CopiesOnTheWay(s) == [];
  }

  // ---- exactly when the lookup is right ----

  predicate NodeOf(nodes: seq<Node>, b: nat, buf: nat) {
    exists k :: 0 <= k < |nodes| && nodes[k].blockno == b && nodes[k].buf == buf
  }

  /** t is s with other content in the buffers in which block b is in flight. */
  ghost predicate Refilled(s: Sys, t: Sys, b: nat) {
    && t == s.(bufs := t.bufs) && |t.bufs| == |s.bufs|
    && forall i: nat :: i < |s.bufs| && t.bufs[i] != s.bufs[i] ==>
      NodeOf(PcNodes(s), b, i) || NodeOf(NodesLeft(s), b, i)
  }

  /** Whatever block b has in flight, readers and new buffers of the block get it. */
  ghost predicate LookupSafe(s: Sys, b: u64) {
    forall t: Sys :: Refilled(s, t, b) ==>
      && Shaped(t) && LiveBufsIn(t) && b < |t.disk.base| && AllBufsIn(t.ckpt, |t.bufs|)
      && (b in t.staged ==> t.staged[b] < |t.bufs|)
      && ReadBlock(t, b) == Layered(t, b) && (b !in t.staged ==> Seed(t, b) == Layered(t, b))
  }

  lemma RefilledShaped(s: Sys, t: Sys, b: nat)
    requires Shaped(s) && LiveBufsIn(s) && Refilled(s, t, b)
    ensures Shaped(t) && LiveBufsIn(t)
  {
    hide PhysOf, NodeOf;
  }

  lemma {:induction false} LastCopyOf(bufs: seq<Block>, nodes: seq<Node>, b: nat)
    requires BufsIn(nodes, |bufs|)
    ensures LastCopy(CopiesOf(bufs, nodes), b).Some? <==> exists i: nat :: NodeOf(nodes, b, i)
  {
    var copies := CopiesOf(bufs, nodes);
    LastCopyIndex(copies, b);
    forall k | 0 <= k < |copies| && copies[k].target == b ensures NodeOf(nodes, b, nodes[k].buf) {
    }
    if i: nat :| NodeOf(nodes, b, i) {
      var k :| 0 <= k < |nodes| && nodes[k].blockno == b && nodes[k].buf == i;
      assert copies[k].target == b;
    }
  }

  /** Whether a block is on the list does not depend on what the buffers hold. */
  lemma {:induction false} FoundSame(bufs: seq<Block>, others: seq<Block>, list: seq<Committed>, b: nat)
    requires AllBufsIn(list, |bufs|) && AllBufsIn(list, |others|)
    ensures FindCheckpointed(bufs, list, b).None? <==> FindCheckpointed(others, list, b).None?
    decreases |list|
  {
    if list != [] {
      var nodes := list[|list| - 1].nodes;
      LastCopyOf(bufs, nodes, b);
      LastCopyOf(others, nodes, b);
      FoundSame(bufs, others, list[..|list| - 1], b);
    }
  }

  /** Outside the window the buffers in flight do not matter. */
  lemma RefilledRead(s: Sys, t: Sys, b: u64)
    requires Shaped(s) && LiveBufsIn(s) && b < |s.disk.base| && HomeOk(s, b) && !Hidden(s, b) && Refilled(s, t, b)
    requires b !in s.staged
    ensures Shaped(t) && LiveBufsIn(t) && ReadBlock(t, b) == Layered(t, b) && Seed(t, b) == Layered(t, b)
  {
    hide PhysOf, Shaped, LiveBufsIn, HomeOk, View, NodeOf, FindCheckpointed, Layered, Seed;
    RefilledShaped(s, t, b);
    ShapedLists(s);
    ShapedLists(t);
    PcBufs(s);
    PcBufs(t);
    LeftBufs(s);
    LastCopyOf(s.bufs, PcNodes(s), b);
    LastCopyOf(t.bufs, PcNodes(s), b);
    LastCopyOf(s.bufs, NodesLeft(s), b);
    LastCopyOf(t.bufs, NodesLeft(s), b);
    FoundSame(s.bufs, t.bufs, s.ckpt, b);
    assert PcNodes(t) == PcNodes(s) && NodesLeft(t) == NodesLeft(s);
    if FindCheckpointed(s.bufs, s.ckpt, b).None? {
      assert t.bufs == s.bufs;
    }
    ReadIsLayered(t, b);
  }

  /** The list's newest copy does not change with buffers the list does not use. */
  lemma {:induction false} FindKept(bufs: seq<Block>, others: seq<Block>, list: seq<Committed>, b: nat, buf: nat)
    requires AllBufsIn(list, |bufs|) && |others| == |bufs|
    requires forall i: nat :: i < |bufs| && i != buf ==> others[i] == bufs[i]
    requires forall i :: 0 <= i < |list| ==> !NodeIn(list[i].nodes, buf)
    ensures AllBufsIn(list, |others|) && FindCheckpointed(others, list, b) == FindCheckpointed(bufs, list, b)
    decreases |list|
  {
    if list != [] {
      var nodes := list[|list| - 1].nodes;
      assert CopiesOf(others, nodes) == CopiesOf(bufs, nodes);
      FindKept(bufs, others, list[..|list| - 1], b, buf);
    }
  }

  /** Another block that is no commit block. */
  lemma OtherBlock(v: Block, n: nat) returns (w: Block)
    ensures w != v && Older(w, n)
  {
    var zeros, ones: Block := seq(4096, _ => 0), seq(4096, _ => 1);
    w := if v == zeros then ones else zeros;
    assert zeros[0] == 0 && ones[0] == 1;
    assert !IsCommit(w);
  }

  lemma LastNode(bufs: seq<Block>, nodes: seq<Node>, b: nat) returns (k: nat)
    requires BufsIn(nodes, |bufs|) && LastCopy(CopiesOf(bufs, nodes), b).Some?
    ensures k < |nodes| && nodes[k].blockno == b && nodes[k].buf < |bufs|
    ensures forall m :: k < m < |nodes| ==> nodes[m].blockno != b
    ensures NodeIn(nodes, nodes[k].buf) && NodeOf(nodes, b, nodes[k].buf)
  {
    var copies := CopiesOf(bufs, nodes);
    k := LastIndex(copies, b);
    forall m | k < m < |nodes| ensures nodes[m].blockno != b {
      assert copies[m].target != b;
    }
  }

  lemma LastRefilled(bufs: seq<Block>, nodes: seq<Node>, b: nat, k: nat, v: Block)
    requires BufsIn(nodes, |bufs|) && k < |nodes| && nodes[k].blockno == b
    requires forall m :: k < m < |nodes| ==> nodes[m].blockno != b
    ensures BufsIn(nodes, |bufs[nodes[k].buf := v]|)
    ensures LastCopy(CopiesOf(bufs[nodes[k].buf := v], nodes), b) == Some(v)
  {
    var copies := CopiesOf(bufs[nodes[k].buf := v], nodes);
    LastCopyIndex(copies, b);
    assert copies[k] == Copy(nodes[k].blockno, v);
  }

  /** A copy on its way to the journal is read past whenever it differs from what lies below. */
  lemma OnTheWayHidden(s: Sys, b: u64) returns (t: Sys)
    requires Unshared(s) && Shaped(s) && LiveBufsIn(s) && b < |s.disk.base| && b !in s.staged
    requires LastCopy(CopiesOnTheWay(s), b).Some?
    ensures Refilled(s, t, b) && Shaped(t) && LiveBufsIn(t) && b < |t.disk.base| && ReadBlock(t, b) != Layered(t, b)
  {
    hide PhysOf, Shaped, LiveBufsIn, View, NodeOf, NodeIn, FindCheckpointed, Logical, NodesLeft;
    ShapedLists(s);
    PcBufs(s);
    var nodes := PcNodes(s);
    var k := LastNode(s.bufs, nodes, b);
    var buf := nodes[k].buf;
    var v := OtherBlock(Seed(s, b), s.next);
    t := s.(bufs := s.bufs[buf := v]);
    RefilledShaped(s, t, b);
    ShapedLists(t);
    forall i | 0 <= i < |s.ckpt| ensures !NodeIn(s.ckpt[i].nodes, buf) {
      assert LiveList(s)[|LiveList(s)| - |s.ckpt| + i] == s.ckpt[i];
    }
    FindKept(s.bufs, t.bufs, s.ckpt, b, buf);
    assert PcNodes(t) == nodes;
    LastRefilled(s.bufs, nodes, b, k, v);
  }

  /** So is a copy that has left the list and has not been written home. */
  lemma GoingHidden(s: Sys, b: u64) returns (t: Sys)
    requires Shaped(s) && LiveBufsIn(s) && b < |s.disk.base| && b !in s.staged
    requires LastCopy(CopiesOnTheWay(s), b).None? && LastCopy(CopiesLeft(s), b).Some?
    requires FindCheckpointed(s.bufs, s.ckpt, b).None?
    ensures Refilled(s, t, b) && Shaped(t) && LiveBufsIn(t) && b < |t.disk.base| && ReadBlock(t, b) != Layered(t, b)
  {
    hide PhysOf, Shaped, LiveBufsIn, View, NodeOf, NodeIn, FindCheckpointed, LiveTxns, CopiesOf, LastCopy, NewestCopy;
    ShapedLists(s);
    LeftBufs(s);
    PcBufs(s);
    var left := NodesLeft(s);
    var k := LastNode(s.bufs, left, b);
    ShapedTxn(s);
    var nodes, done := s.pc.txn.nodes, s.pc.done;
    var buf := left[k].buf;
    var v := OtherBlock(View(s.disk, b), s.next);
    t := s.(bufs := s.bufs[buf := v]);
    RefilledShaped(s, t, b);
    ShapedLists(t);
    FoundSame(s.bufs, t.bufs, s.ckpt, b);
    assert PcNodes(t) == PcNodes(s);
    LastCopyOf(s.bufs, PcNodes(s), b);
    LastCopyOf(t.bufs, PcNodes(s), b);
    CkptNewest(t, b);
    assert nodes[done + k] == left[k];
    forall m | done + k < m < |nodes| ensures nodes[m].blockno != b {
      assert nodes[m] == left[m - done];
    }
    LastRefilled(s.bufs, nodes, b, done + k, v);
  }

  /** Where no direct write has got in between, the window is all there is. */
  lemma LookupWindow(s: Sys, b: u64)
    requires Inv(s) && Shaped(s) && LiveBufsIn(s) && b < |s.disk.base| && HomeOk(s, b) && b !in s.staged
    ensures LookupSafe(s, b) <==> !Hidden(s, b)
  {
    hide PhysOf, JournalInv, HandlesOk, StagingOk, NodesHome, BufsOlder, HomeOlder, DirectOk, Unshared;
    hide Shaped, LiveBufsIn, HomeOk, View, CopiesOnTheWay, CopiesLeft, FindCheckpointed, Layered, Refilled;
    ShapedLists(s);
    if !Hidden(s, b) {
      forall t: Sys | Refilled(s, t, b)
        ensures Shaped(t) && LiveBufsIn(t) && b < |t.disk.base| && AllBufsIn(t.ckpt, |t.bufs|)
        ensures b !in t.staged && ReadBlock(t, b) == Layered(t, b) && Seed(t, b) == Layered(t, b)
      {
        RefilledRead(s, t, b);
        RefilledDisk(s, t, b);
        ShapedLists(t);
      }
    } else if LastCopy(CopiesOnTheWay(s), b).Some? {
      var t := OnTheWayHidden(s, b);
    } else {
      var t := GoingHidden(s, b);
    }
  }

  lemma RefilledDisk(s: Sys, t: Sys, b: nat)
    requires Refilled(s, t, b)
    ensures t.disk == s.disk && t.staged == s.staged
  {}

  /**
   For a block that has been written only through staging, in every state of every run: the
   three-tier lookup, and the seed of a newly staged buffer, return its newest content whatever
   is in flight if and only if the block is not in the window.
   */
  lemma LookupExact(states: seq<Sys>, actions: seq<Action>, i: nat, b: u64)
    requires IsRun(states, actions) && Init(states[0]) && i < |states| == |actions| + 1
    requires StagedOnly(states, actions, i, b) && b < |states[0].disk.base| && Settled(states[0].disk, b)
    requires b !in states[i].staged
    ensures Shaped(states[i]) && (LookupSafe(states[i], b) <==> !Hidden(states[i], b))
  {
    hide PhysOf, IsRun, Init, Inv, Shaped, HomeOk, Settled, Hidden, LookupSafe, StagedOnly, LiveBufsIn, View, Logical;
    RunShapes(states, actions);
    RunLogical(states, actions, i, b);
    LookupWindow(states[i], b);
  }

  // ---- direct writes ----

  /** Whatever the buffers of t hold, block b reads as data. */
  ghost predicate ReadsAs(t: Sys, b: u64, data: Block) {
    forall u: Sys :: OtherBufs(t, u) ==>
      && Shaped(u) && b < |u.disk.base| && AllBufsIn(u.ckpt, |u.bufs|) && (b in u.staged ==> u.staged[b] < |u.bufs|)
      && ReadBlock(u, b) == data
  }

  predicate OtherBufs(t: Sys, u: Sys) {
    u == t.(bufs := u.bufs) && |u.bufs| == |t.bufs|
  }

  lemma OtherShaped(t: Sys, u: Sys)
    requires Shaped(t) && OtherBufs(t, u)
    ensures Shaped(u)
  {
    hide PhysOf;
  }

  lemma {:induction false} FoundConstant(bufs: seq<Block>, list: seq<Committed>, b: nat, v: Block)
    requires AllBufsIn(list, |bufs|) && forall i :: 0 <= i < |bufs| ==> bufs[i] == v
    ensures FindCheckpointed(bufs, list, b).Some? ==> FindCheckpointed(bufs, list, b).value == v
    decreases |list|
  {
    if list != [] {
      var copies := CopiesOf(bufs, list[|list| - 1].nodes);
      if LastCopy(copies, b).Some? {
        var k := LastIndex(copies, b);
        LastCopyIndex(copies, b);
        assert copies[k].data == v;
      } else {
        FoundConstant(bufs, list[..|list| - 1], b, v);
      }
    }
  }

  lemma {:induction false} UnlistedReads(t: Sys, b: u64, data: Block)
    requires Shaped(t) && AllBufsIn(t.ckpt, |t.bufs|) && b < |t.disk.base| && View(t.disk, b) == data
    requires b !in t.staged && FindCheckpointed(t.bufs, t.ckpt, b).None?
    ensures ReadsAs(t, b, data)
  {
    hide PhysOf, Shaped, View, FindCheckpointed;
    forall u: Sys | OtherBufs(t, u)
      ensures Shaped(u) && b < |u.disk.base| && AllBufsIn(u.ckpt, |u.bufs|) && b !in u.staged && ReadBlock(u, b) == data
    {
      OtherShaped(t, u);
      ShapedLists(u);
      FoundSame(t.bufs, u.bufs, t.ckpt, b);
    }
  }

  lemma {:induction false} ListedReads(t: Sys, b: u64, data: Block)
    requires Shaped(t) && AllBufsIn(t.ckpt, |t.bufs|) && b < |t.disk.base|
    requires b in t.staged || FindCheckpointed(t.bufs, t.ckpt, b).Some?
    ensures !ReadsAs(t, b, data)
  {
    hide PhysOf, Shaped, View, FindCheckpointed;
    var w := OtherBlock(data, 0);
    var u := t.(bufs := seq(|t.bufs|, _ => w));
    OtherShaped(t, u);
    ShapedLists(t);
    ShapedLists(u);
    FoundSame(t.bufs, u.bufs, t.ckpt, b);
    FoundConstant(u.bufs, u.ckpt, b, w);
    assert OtherBufs(t, u) && ReadBlock(u, b) != data;
  }

  /**
   A direct write is what the lookup returns, whatever the buffers hold, if and only if its
   block is neither staged nor on the checkpoint list.
   */
  lemma {:induction false} DirectRead(s: Sys, h: nat, b: u64, data: Block, t: Sys)
    requires Step(s, WriteDirect(h, b, data), t)
    ensures Shaped(s) && AllBufsIn(s.ckpt, |s.bufs|)
    ensures ReadsAs(t, b, data) <==> b !in s.staged && FindCheckpointed(s.bufs, s.ckpt, b).None?
  {
    hide PhysOf, Step, Shaped, View, FindCheckpointed, StageStep, ReadsAs;
    ShapedStep(s, WriteDirect(h, b, data), t);
    HandleFacts(s, WriteDirect(h, b, data), t);
    HomeBlock(s.g, |s.disk.base|, b);
    ShapedLists(s);
    ShapedLists(t);
    DoView(s.disk, Write(b, data), b);
    FoundSame(s.bufs, t.bufs, s.ckpt, b);
    if b !in s.staged && FindCheckpointed(s.bufs, s.ckpt, b).None? {
      UnlistedReads(t, b, data);
    } else {
      ListedReads(t, b, data);
    }
  }

  // ---- the snapshot ----

  lemma {:induction false} FlattenedCopy(bufs: seq<Block>, nodes: seq<Node>, staged: map<u64, nat>, b: u64)
    requires BufsIn(nodes, |bufs|) && Flattens(nodes, staged)
    ensures b in staged ==> staged[b] < |bufs| && LastCopy(CopiesOf(bufs, nodes), b) == Some(bufs[staged[b]])
    ensures b !in staged ==> LastCopy(CopiesOf(bufs, nodes), b) == None
  {
    var copies := CopiesOf(bufs, nodes);
    LastCopyIndex(copies, b);
    if b in staged {
      var i :| 0 <= i < |nodes| && nodes[i] == Node(b, staged[b]);
      assert copies[i].target == b;
    }
    if LastCopy(copies, b).Some? {
      var k := LastIndex(copies, b);
    }
  }

  lemma SnapshotLayered(s: Sys, t: Sys, nodes: seq<Node>, b: nat)
    requires Shaped(s) && LiveBufsIn(s) && s.pc.Freezing? && FreezeTick(s, t, nodes) && b < |s.disk.base|
    ensures Shaped(t) && LiveBufsIn(t) && Layered(t, b) == Layered(s, b)
  {
    hide PhysOf, View, Shaped, Flattens, LiveTxns, Logical;
    ShapedFits(s);
    ShapedFreeze(s, nodes, t);
    FlattenedBufsIn(s, nodes);
    assert LiveList(t) == LiveList(s);
    SameListTxns(s, t);
    LogicalSame(s, t, b);
    FlattenedCopy(s.bufs, nodes, s.staged, b);
    assert CopiesOnTheWay(s) == [] && CopiesOnTheWay(t) == CopiesOf(s.bufs, nodes);
  }

  // ---- the layered map under a step ----

  /** The generation on its way to the journal is given up, and block b with it. */
  ghost predicate Drops(s: Sys, a: Action, t: Sys, b: nat)
    requires Shaped(s)
  {
    a.Tick? && s.pc.Reclaiming? && t.pc.Lagging? && LastCopy(CopiesOnTheWay(s), b).Some?
  }

  lemma OnTheWayTick(s: Sys, nodes: seq<Node>, t: Sys)
    requires Shaped(s) && TickStep(s, t, nodes) && !s.pc.Freezing? && !s.pc.Reclaiming?
    ensures PcNodes(t) == if t.next == s.next then PcNodes(s) else []
    ensures t.bufs == s.bufs && t.staged == s.staged
  {
    hide PhysOf, Shaped, TickStep, Passes, OnTheWay;
    TickFrame(s, nodes, t);
    TickPasses(s, nodes, t);
    PassesNodes(s, t);
  }

  /** The condition under which the generation is given up. */
  predicate TooBig(s: Sys)
    requires s.pc.Reclaiming?
  {
    |s.pc.nodes| > MAX_TAGS || (|s.pc.nodes| + 2 > s.g.maxlen && s.ckpt == [])
  }

  /**
   A generation too big for a descriptor, or for the whole region with the log empty, is
   forgotten: unstaged blocks fall back to what the log and their homes hold. Any other
   outcome of the reclaim loop leaves the layered map alone.
   */
  lemma DropForgets(s: Sys, t: Sys, b: nat)
    requires JournalInv(s) && s.pc.Reclaiming? && ReclaimTick(s, t) && b < |s.disk.base|
    ensures Shaped(s) && LiveBufsIn(s) && Shaped(t) && LiveBufsIn(t) && b < |t.disk.base|
    ensures Layered(t, b) == if TooBig(s) && !(b < U64 && b in s.staged) then Logical(s, b) else Layered(s, b)
  {
    hide PhysOf, JournalInv, Shaped, View, LiveTxns, LiveBufsIn, Logical, ReclaimTick, CopiesOf, Passes;
    InvPartsOf(s);
    ReclaimOutcome(s, t);
    ShapedReclaim(s, t);
    ReclaimFrame(s, t);
    ReclaimPasses(s, t);
    PassesNodes(s, t);
    SameListTxns(s, t);
    LogicalSame(s, t, b);
    if t.pc.Lagging? {
      NothingOnTheWay(t);
    }
  }

  lemma NothingOnTheWay(s: Sys)
    requires Shaped(s) && PcNodes(s) == []
    ensures CopiesOnTheWay(s) == []
  {
    hide PhysOf, Shaped;
  }

  lemma TickLayered(s: Sys, nodes: seq<Node>, t: Sys, b: nat)
    requires Inv(s) && Shaped(s) && Step(s, Tick(nodes), t) && !Drops(s, Tick(nodes), t, b) && !s.pc.Freezing?
    requires IsHome(s.g, |s.disk.base|, b) && b < |s.disk.base| && HomeOk(s, b)
    ensures LiveBufsIn(s) && Shaped(t) && LiveBufsIn(t) && |t.disk.base| == |s.disk.base|
    ensures Layered(t, b) == Layered(s, b)
  {
    hide PhysOf, Inv, Step, TickStep, View, Shaped, HomeOk, LiveTxns, LiveBufsIn, Logical, IsHome, ReclaimTick;
    IsTick(s, Tick(nodes), t);
    ShapedStep(s, Tick(nodes), t);
    LogicalStep(s, Tick(nodes), t, b);
    if s.pc.Reclaiming? {
      InvParts(s);
      IsReclaim(s, nodes, t);
      ReclaimOutcome(s, t);
      DropForgets(s, t, b);
    } else {
      OnTheWayTick(s, nodes, t);
      if t.next != s.next {
        NothingOnTheWay(t);
      } else {
        assert CopiesOnTheWay(t) == CopiesOnTheWay(s);
      }
    }
  }

  lemma IsReclaim(s: Sys, nodes: seq<Node>, t: Sys)
    requires Shaped(s) && TickStep(s, t, nodes) && s.pc.Reclaiming?
    ensures ReclaimTick(s, t)
  {
    hide ReclaimTick, Shaped, PhysOf;
  }

  lemma OnTheWayFrame(s: Sys, t: Sys)
    requires Shaped(s) && Shaped(t) && SameTaken(s, t) && t.pc == s.pc && t.ckpt == s.ckpt
    ensures CopiesOnTheWay(t) == CopiesOnTheWay(s)
  {
    hide PhysOf, Shaped;
    var nodes := PcNodes(s);
    assert PcNodes(t) == nodes;
    PcBufs(s);
    PcBufs(t);
    forall i | 0 <= i < |nodes| ensures t.bufs[nodes[i].buf] == s.bufs[nodes[i].buf] {
      assert Taken(s, PcNodes(s)[i].buf);
    }
    assert CopiesOf(t.bufs, nodes) == CopiesOf(s.bufs, nodes);
  }

  lemma PcBufs(s: Sys)
    requires Shaped(s)
    ensures BufsIn(PcNodes(s), |s.bufs|)
  {
    hide PhysOf;
  }

  /** The action writes the staged buffer of block b. */
  predicate FillsBlock(s: Sys, a: Action, b: nat) {
    a.Fill? && b < U64 && b in s.staged && s.staged[b] == a.buf
  }

  lemma HandleLayered(s: Sys, a: Action, t: Sys, b: nat)
    requires Inv(s) && Shaped(s) && Step(s, a, t) && !a.Tick? && b < |s.disk.base| && HomeOk(s, b)
    requires IsHome(s.g, |s.disk.base|, b) && (a.WriteDirect? ==> a.b != b)
    requires a.Stage? && a.b == b ==> !Hidden(s, b)
    ensures LiveBufsIn(s) && Shaped(t) && LiveBufsIn(t) && |t.disk.base| == |s.disk.base|
    ensures Layered(t, b) == if FillsBlock(s, a, b) then a.data else Layered(s, b)
  {
    hide PhysOf, JournalInv, View, Shaped, HomeOk, LiveTxns, LiveBufsIn, Logical, IsHome, Hidden, Seed, HandlesOk;
    hide NodesHome, BufsOlder, HomeOlder, DirectOk, Older, CopiesOnTheWay, SameTaken, Step, StagingOk;
    ShapedStep(s, a, t);
    HandleLogical(s, a, t, b);
    HandleSameTaken(s, a, t);
    OnTheWayFrame(s, t);
    assert LogicalAfter(t, b) == LogicalAfter(s, b);
    if a.Stage? {
      StageLayered(s, a, t, b);
    } else {
      FillLayered(s, a, t, b);
    }
  }

  lemma StageLayered(s: Sys, a: Action, t: Sys, b: nat)
    requires Shaped(s) && Shaped(t) && LiveBufsIn(s) && LiveBufsIn(t) && Step(s, a, t) && a.Stage?
    requires b < |s.disk.base| == |t.disk.base| && LogicalAfter(t, b) == LogicalAfter(s, b)
    requires a.b == b ==> !Hidden(s, b) && HomeOk(s, b)
    ensures Layered(t, b) == Layered(s, b)
  {
    hide PhysOf, HomeOk, View, Shaped, LiveTxns, LiveBufsIn, LogicalAfter, Hidden, Seed, Older;
    HomeBlock(s.g, |s.disk.base|, a.b);
    ShapedLists(s);
    if a.b == b {
      ReadIsLayered(s, b);
    }
  }

  lemma FillLayered(s: Sys, a: Action, t: Sys, b: nat)
    requires Shaped(s) && Shaped(t) && LiveBufsIn(s) && LiveBufsIn(t) && Step(s, a, t)
    requires !a.Stage? && !a.Tick?
    requires b < |s.disk.base| == |t.disk.base| && LogicalAfter(t, b) == LogicalAfter(s, b)
    ensures Layered(t, b) == if FillsBlock(s, a, b) then a.data else Layered(s, b)
  {
    hide PhysOf, View, Shaped, LiveTxns, LiveBufsIn, LogicalAfter, Older, IsHome, Taken;
    ShapedLists(s);
  }

  /**
   Commits and checkpoints never change the layered map; a fill changes it at its own block.
   It can only go wrong where a generation with the block is dropped, or a hidden block staged.
   */
  lemma LayeredStep(s: Sys, a: Action, t: Sys, b: nat)
    requires Inv(s) && Shaped(s) && Step(s, a, t)
    requires IsHome(s.g, |s.disk.base|, b) && b < |s.disk.base| && HomeOk(s, b) && NotDirect(a, b)
    requires !Drops(s, a, t, b) && (a.Stage? && a.b == b ==> !Hidden(s, b))
    ensures LiveBufsIn(s) && Shaped(t) && LiveBufsIn(t) && |t.disk.base| == |s.disk.base|
    ensures Layered(t, b) == if FillsBlock(s, a, b) then a.data else Layered(s, b)
  {
    hide PhysOf, Inv, Step, TickStep, View, Shaped, HomeOk, LiveTxns, LiveBufsIn, Layered, IsHome, Hidden;
    if !a.Tick? {
      HandleLayered(s, a, t, b);
    } else if !s.pc.Freezing? {
      TickLayered(s, a.nodes, t, b);
    } else {
      InvParts(s);
      IsTick(s, a, t);
      TickFrame(s, a.nodes, t);
      FreezeDisk(s, t, a.nodes);
      SnapshotLayered(s, t, a.nodes, b);
    }
  }

  lemma FreezeDisk(s: Sys, t: Sys, nodes: seq<Node>)
    requires FreezeTick(s, t, nodes)
    ensures t.disk == s.disk
  {
    hide Flattens;
  }

  lemma InvPartsOf(s: Sys)
    requires JournalInv(s)
    ensures Shaped(s) && LiveBufsIn(s)
  {
    hide PhysOf, Shaped, JournalOk, Tiles;
  }

  /** What was last written to block b through a staged buffer in the first i steps. */
  ghost function LastWritten(states: seq<Sys>, actions: seq<Action>, i: nat, b: nat): Block
    requires i < |states| == |actions| + 1 && b < |states[0].disk.base|
  {
    if i == 0 then View(states[0].disk, b)
    else if FillsBlock(states[i - 1], actions[i - 1], b) then actions[i - 1].data
    else LastWritten(states, actions, i - 1, b)
  }

  /** The step neither drops a generation with b in it nor stages b while it is hidden. */
  ghost predicate Plain(s: Sys, a: Action, t: Sys, b: nat) {
    Shaped(s) && NotDirect(a, b) && !Drops(s, a, t, b) && (a.Stage? && a.b == b ==> !Hidden(s, b))
  }

  ghost predicate PlainFor(states: seq<Sys>, actions: seq<Action>, i: nat, b: nat)
    requires i < |states| == |actions| + 1
  {
    forall k: nat :: k < i ==> PlainAt(states, actions, k, b)
  }

  ghost predicate PlainAt(states: seq<Sys>, actions: seq<Action>, k: nat, b: nat)
    requires k < |actions| == |states| - 1
  {
    Plain(states[k], actions[k], states[k + 1], b)
  }

  lemma {:induction false} InitLayered(s: Sys, b: nat)
    requires Init(s) && Shaped(s) && b < |s.disk.base| && Settled(s.disk, b)
    ensures LiveBufsIn(s) && Layered(s, b) == View(s.disk, b)
  {
    hide PhysOf, Stable, View, HomeOlder, Settled, Shaped, Logical;
    InitHome(s, b);
    assert CopiesOnTheWay(s) == [];
  }

  /**
   Last write wins: whatever has been staged, committed and checkpointed, the layers hold
   what was last written to block b, and so does the lookup unless b is hidden right now.
   */
  lemma {:induction false} ReadsLastWritten(states: seq<Sys>, actions: seq<Action>, i: nat, b: u64)
    requires IsRun(states, actions) && Init(states[0]) && i < |states| && AllShaped(states)
    requires IsHome(states[0].g, |states[0].disk.base|, b) && PlainFor(states, actions, i, b)
    requires b < |states[0].disk.base| && Settled(states[0].disk, b)
    ensures LiveBufsIn(states[i]) && Inv(states[i]) && b < |states[i].disk.base| && HomeOk(states[i], b)
    ensures Layered(states[i], b) == LastWritten(states, actions, i, b)
    ensures AllBufsIn(states[i].ckpt, |states[i].bufs|)
    ensures b in states[i].staged ==> states[i].staged[b] < |states[i].bufs|
    ensures !Hidden(states[i], b) ==> ReadBlock(states[i], b) == LastWritten(states, actions, i, b)
  {
    hide PhysOf, Step, Inv, Init, Shaped, HomeOk, Settled, Layered, View, IsHome, LiveBufsIn, Hidden, ReadBlock, Plain;
    RunShape(states, actions, i);
    InvParts(states[i]);
    ShapedLists(states[i]);
    if i == 0 {
      InitLayered(states[0], b);
      InitHome(states[0], b);
    } else {
      var k := i - 1;
      RunShape(states, actions, k);
      assert PlainFor(states, actions, k, b) && PlainAt(states, actions, k, b);
      PlainParts(states[k], actions[k], states[k + 1], b);
      ReadsLastWritten(states, actions, k, b);
      assert Step(states[k], actions[k], states[k + 1]);
      HomeStep(states[k], actions[k], states[i], b);
      LayeredStep(states[k], actions[k], states[i], b);
    }
    if !Hidden(states[i], b) {
      ReadIsLayered(states[i], b);
    }
  }

  lemma PlainParts(s: Sys, a: Action, t: Sys, b: nat)
    requires Plain(s, a, t, b)
    ensures Shaped(s) && NotDirect(a, b) && !Drops(s, a, t, b) && (a.Stage? && a.b == b ==> !Hidden(s, b))
    ensures a.WriteDirect? ==> a.b != b
  {
    hide Shaped, Hidden;
  }
}
