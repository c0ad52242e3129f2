/**
 The logical disk: home content overlaid by the live transactions. Only publishing a commit
 changes it, and a crash at any step recovers it as it stands before or after the commit in
 progress.
 */
module LogicalDisk {
  import opened Bytes
  import opened DiskFormat
  import opened Device
  import opened LogFormat
  import opened Replay
  import opened CrashSafety
  import opened CrashOutcome
  import opened Checkpoint
  import opened Pipeline
  import opened PipelineJournal
  import opened PipelineInv

  /** The scan of the checkpoint list finds what replaying it would install. */
  lemma {:induction false} FindIsNewest(bufs: seq<Block>, list: seq<Committed>, b: nat)
    requires AllBufsIn(list, |bufs|)
    ensures FindCheckpointed(bufs, list, b) == NewestCopy(TxnsOf(bufs, list), b)
    decreases |list|
  {
    if list != [] {
      var front := list[..|list| - 1];
      assert TxnsOf(bufs, list)[..|list| - 1] == TxnsOf(bufs, front);
      FindIsNewest(bufs, front, b);
    }
  }

  // ---- the logical disk ----

  /** Block b as the committed transactions leave it. */
  function Logical(s: Sys, b: nat): Block
    requires LiveBufsIn(s) && b < |s.disk.base|
  {
    var c := NewestCopy(LiveTxns(s), b);
    if c.Some? then c.value else View(s.disk, b)
  }

  /** The copies of the generation on its way to the journal. */
  function CopiesOnTheWay(s: Sys): seq<Copy>
    requires Shaped(s)
  {
    CopiesOf(s.bufs, PcNodes(s))
  }

  /** Block b as the logical disk will have it once the commit in progress is published. */
  function LogicalAfter(s: Sys, b: nat): Block
    requires Shaped(s) && LiveBufsIn(s) && b < |s.disk.base|
  {
    var c := LastCopy(CopiesOnTheWay(s), b);
    if c.Some? then c.value else Logical(s, b)
  }

  /** The copies that are going home now. */
  function GoingHome(s: Sys): seq<Copy>
    requires Shaped(s)
  {
    if s.pc.Checkpointing? then CopiesOf(s.bufs, s.pc.txn.nodes) else []
  }

  /** The nodes of the transaction going home whose home write has not been issued. */
  function NodesLeft(s: Sys): seq<Node> {
    if s.pc.Checkpointing? && s.pc.done <= |s.pc.txn.nodes| then s.pc.txn.nodes[s.pc.done..] else []
  }

  function CopiesLeft(s: Sys): (cs: seq<Copy>)
    requires Shaped(s)
    ensures |cs| == |NodesLeft(s)|
  {
    LeftBufs(s);
    CopiesOf(s.bufs, NodesLeft(s))
  }

  lemma LeftBufs(s: Sys)
    requires Shaped(s)
    ensures BufsIn(NodesLeft(s), |s.bufs|)
  {
    hide PhysOf;
  }

  function GoneHome(s: Sys): nat {
    if s.pc.Checkpointing? then s.pc.done else 0
  }

  /**
   Home block b, for a block nobody writes directly: between checkpoints no crash can change
   it, during one it is what its copy makes it.
   */
  ghost predicate HomeOk(s: Sys, b: nat)
    requires Shaped(s) && b < |s.disk.base|
  {
    if LastCopy(GoingHome(s), b).Some? then HomeMoving(s.disk, GoingHome(s), GoneHome(s), b)
    else Settled(s.disk, b)
  }

  // ---- home content under a step ----

  lemma OtherWriteMoving(d: Disk, copies: seq<Copy>, k: nat, b: nat, op: Op)
    requires b < |d.base| && HomeMoving(d, copies, k, b) && op.Write? && op.blockno != b
    ensures HomeMoving(Do(d, op), copies, k, b)
  {
    hide May, View, Settled, PhysOf;
    DoView(d, op, b);
    if k > |copies| && LastCopy(copies, b).Some? {
      SettledDo(d, op, b);
    }
  }

  /** A handle does not touch what is going home. */
  lemma GoingHomeSame(s: Sys, t: Sys)
    requires Shaped(s) && Shaped(t) && SameTaken(s, t) && t.pc == s.pc && LiveBufsIn(s)
    ensures GoingHome(t) == GoingHome(s) && GoneHome(t) == GoneHome(s)
  {
    hide PhysOf, Shaped;
    if s.pc.Checkpointing? {
      var nodes := s.pc.txn.nodes;
      ShapedTxn(s);
      ShapedTxn(t);
      assert LiveList(s)[0].nodes == nodes;
      forall i | 0 <= i < |nodes| ensures t.bufs[nodes[i].buf] == s.bufs[nodes[i].buf] {
        assert Taken(s, LiveList(s)[0].nodes[i].buf);
      }
    }
  }

  lemma HomeFrame(s: Sys, t: Sys, b: nat)
    requires Shaped(s) && Shaped(t) && b < |s.disk.base| && HomeOk(s, b)
    requires GoingHome(t) == GoingHome(s) && GoneHome(t) == GoneHome(s) && t.disk == s.disk
    ensures HomeOk(t, b)
  {
    hide PhysOf, Shaped, Settled, HomeMoving, GoingHome, GoneHome;
  }

  /** What handles do, direct writes to b apart, leaves home block b as it is. */
  lemma HandleHome(s: Sys, a: Action, t: Sys, b: nat)
    requires Inv(s) && Step(s, a, t) && !a.Tick? && Shaped(t)
    requires IsHome(s.g, |s.disk.base|, b) && HomeOk(s, b) && (a.WriteDirect? ==> a.b != b)
    ensures |t.disk.base| == |s.disk.base| && HomeOk(t, b)
  {
    hide PhysOf, JournalInv, View, Seed, Older, Taken, HomeOlder, BufsOlder, DirectOk, NodesHome, StagingOk, IsHome;
    hide Settled, HomeMoving, GoingHome, GoneHome, Shaped;
    JournalParts(s);
    HomeBlock(s.g, |s.disk.base|, b);
    if a.Stage? {
      HomeBlock(s.g, |s.disk.base|, a.b);
    }
    if a.Fill? {
      StagedNotTaken(s, a.h, a.buf);
    }
    GoingHomeSame(s, t);
    if a.WriteDirect? {
      OtherWriteHome(s, t, b, Write(a.b, a.data));
    } else {
      HomeFrame(s, t, b);
    }
  }

  lemma OtherWriteHome(s: Sys, t: Sys, b: nat, op: Op)
    requires Shaped(s) && Shaped(t) && b < |s.disk.base| && HomeOk(s, b)
    requires GoingHome(t) == GoingHome(s) && GoneHome(t) == GoneHome(s) && t.disk == Do(s.disk, op)
    requires op.Write? && op.blockno != b
    ensures HomeOk(t, b)
  {
    hide PhysOf, Shaped, Settled, HomeMoving, GoingHome, GoneHome;
    if LastCopy(GoingHome(s), b).Some? {
      OtherWriteMoving(s.disk, GoingHome(s), GoneHome(s), b, op);
    } else {
      SettledDo(s.disk, op, b);
    }
  }

  /** Away from checkpoints the thread only writes the journal and flushes. */
  lemma QuietHome(s: Sys, t: Sys, b: nat, op: Op)
    requires Shaped(s) && Shaped(t) && b < |s.disk.base| && HomeOk(s, b)
    requires !s.pc.Checkpointing? && !t.pc.Checkpointing? && t.disk == Do(s.disk, op)
    requires op.Write? ==> op.blockno != b
    ensures HomeOk(t, b)
  {
    hide PhysOf, Shaped, Settled, HomeMoving;
    SettledDo(s.disk, op, b);
  }

  lemma StillHome(s: Sys, t: Sys, b: nat)
    requires Shaped(s) && Shaped(t) && b < |s.disk.base| && HomeOk(s, b)
    requires !s.pc.Checkpointing? && t.disk == s.disk && (t.pc.Checkpointing? ==> t.pc.done == 0)
    ensures HomeOk(t, b)
  {
    hide PhysOf, Shaped, Settled;
    assert GoingHome(t)[..0] == [];
  }

  lemma GoingIsOldest(s: Sys)
    requires JournalInv(s) && s.pc.Checkpointing?
    ensures Shaped(s) && LiveBufsIn(s) && LiveTxns(s) != [] && LiveTxns(s)[0].copies == GoingHome(s)
  {
    hide PhysOf, JournalInv, Shaped;
    JournalParts(s);
    ShapedTxn(s);
    Oldest(s);
  }

  /** One operation of a checkpoint. */
  lemma InstallHome(s: Sys, t: Sys, b: nat)
    requires JournalInv(s) && s.pc.Checkpointing? && Shaped(s) && s.pc.done < |CheckpointScript(s)| && Shaped(t)
    requires b < |s.disk.base| && IsHome(s.g, |s.disk.base|, b) && HomeOk(s, b)
    requires t.disk == Do(s.disk, CheckpointScript(s)[s.pc.done])
    requires GoingHome(t) == GoingHome(s) && GoneHome(s) == s.pc.done && GoneHome(t) == s.pc.done + 1
    ensures HomeOk(t, b)
  {
    hide PhysOf, Shaped, Settled, HomeMoving, JournalInv, IsHome, OldestOps, CheckpointScript, GoingHome, GoneHome;
    Scripts(s);
    JournalParts(s);
    GoingIsOldest(s);
    if LastCopy(GoingHome(s), b).Some? {
      HomeMovingStep(s.disk, LogOf(s), s.pc.done, b);
    } else {
      OtherBlocksStep(s.disk, LogOf(s), s.pc.done, b);
    }
  }

  lemma CheckpointHome(s: Sys, t: Sys, b: nat)
    requires JournalInv(s) && s.pc.Checkpointing? && Shaped(s) && CheckpointTick(s, t) && Shaped(t)
    requires b < |s.disk.base| && IsHome(s.g, |s.disk.base|, b) && HomeOk(s, b)
    ensures b < |t.disk.base| && HomeOk(t, b)
  {
    hide PhysOf, Shaped, HomeOk, JournalInv, IsHome, CheckpointScript, CheckpointTick, Resumed;
    ShapedTxn(s);
    CheckpointCases(s, t);
    if s.pc.done < |CheckpointScript(s)| {
      ShapedTxn(t);
      assert GoingHome(t) == GoingHome(s);
      InstallHome(s, t, b);
    } else {
      ResumedAway(s.pc.resume);
      EndHome(s, t, b);
    }
  }

  lemma ResumedAway(r: Resume)
    ensures !Resumed(r).Checkpointing?
  {}

  lemma EndHome(s: Sys, t: Sys, b: nat)
    requires Shaped(s) && Shaped(t) && s.pc.Checkpointing? && !t.pc.Checkpointing? && t.disk == s.disk
    requires s.pc.done >= |CheckpointScript(s)| && b < |s.disk.base| && HomeOk(s, b)
    ensures HomeOk(t, b)
  {
    hide PhysOf, Shaped, Settled, CheckpointOps, NewTail, NewTailSequence;
    assert LastCopy([], b).None?;
  }

  lemma CommitHome(s: Sys, t: Sys, b: nat)
    requires s.pc.Committing? && Shaped(s) && CommitTick(s, t) && Shaped(t)
    requires b < |s.disk.base| && IsHome(s.g, |s.disk.base|, b) && HomeOk(s, b)
    ensures b < |t.disk.base| && HomeOk(t, b)
  {
    hide PhysOf, Shaped, HomeOk, IsHome, CommitScript, Published;
    if s.pc.done < |CommitScript(s)| {
      CommitScriptAway(s);
      QuietHome(s, t, b, CommitScript(s)[s.pc.done]);
    } else {
      PublishFrame(s, t);
      PublishDisk(s, t);
      StillHome(s, t, b);
    }
  }

  lemma PublishDisk(s: Sys, t: Sys)
    requires s.pc.Committing? && s.next < U64 && t == Published(s)
    ensures t.disk == s.disk
  {}

  lemma ForceHome(s: Sys, t: Sys, b: nat)
    requires s.pc.Forcing? && Shaped(s) && ForceTick(s, t) && Shaped(t) && b < |s.disk.base| && HomeOk(s, b)
    ensures b < |t.disk.base| && HomeOk(t, b)
  {
    hide PhysOf, Shaped, HomeOk;
    if t.disk == s.disk {
      StillHome(s, t, b);
    } else {
      QuietHome(s, t, b, Flush);
    }
  }

  lemma TickHome(s: Sys, nodes: seq<Node>, t: Sys, b: nat)
    requires Inv(s) && Shaped(s) && TickStep(s, t, nodes) && Shaped(t)
    requires b < |s.disk.base| && IsHome(s.g, |s.disk.base|, b) && HomeOk(s, b)
    ensures b < |t.disk.base| && HomeOk(t, b)
  {
    hide PhysOf, JournalInv, NodesHome, BufsOlder, HomeOlder, DirectOk, StagingOk, HandlesOk, Shaped, IsHome, HomeOk;
    hide WaitTick, FreezeTick, ReclaimTick, CommitTick, CheckpointTick, LagTick, DrainTick, ForceTick;
    match s.pc
    case Committing(_, _, _) => CommitHome(s, t, b);
    case Checkpointing(_, _, _) => CheckpointHome(s, t, b);
    case Forcing(_, _) => ForceHome(s, t, b);
    case _ =>
      QuietTick(s, nodes, t);
      StillHome(s, t, b);
  }

  lemma QuietTick(s: Sys, nodes: seq<Node>, t: Sys)
    requires Shaped(s) && TickStep(s, t, nodes) && !s.pc.Committing? && !s.pc.Checkpointing? && !s.pc.Forcing?
    ensures JournalUntouched(s, t) && t.bufs == s.bufs && t.disk.base == s.disk.base
    ensures t.pc.Checkpointing? ==> t.pc.done == 0
    ensures LiveList(t) == LiveList(s)
  {
    hide PhysOf, Shaped, TickStep, Passes, Flattens;
    TickFrame(s, nodes, t);
    if !s.pc.Freezing? {
      TickPasses(s, nodes, t);
      PassesNodes(s, t);
    }
  }

  /** Steps keep the home content invariant of every block they do not write directly. */
  lemma HomeStep(s: Sys, a: Action, t: Sys, b: nat)
    requires Inv(s) && Step(s, a, t) && Shaped(s)
    requires b < |s.disk.base| && IsHome(s.g, |s.disk.base|, b) && HomeOk(s, b) && (a.WriteDirect? ==> a.b != b)
    ensures Shaped(t) && t.g == s.g && |t.disk.base| == |s.disk.base| && HomeOk(t, b)
  {
    hide PhysOf, Step, TickStep, Inv, HomeOk, IsHome;
    ShapedStep(s, a, t);
    if a.Tick? {
      IsTick(s, a, t);
      TickHome(s, a.nodes, t, b);
    } else {
      HandleHome(s, a, t, b);
    }
  }

  // ---- the logical disk under a step ----

  lemma {:induction false} LogicalSame(s: Sys, t: Sys, b: nat)
    requires LiveBufsIn(s) && LiveBufsIn(t) && LiveTxns(t) == LiveTxns(s) && b < |s.disk.base| == |t.disk.base|
    requires View(t.disk, b) == View(s.disk, b) || NewestCopy(LiveTxns(s), b).Some?
    ensures Logical(t, b) == Logical(s, b)
  {
    hide View;
  }

  lemma HandleLogical(s: Sys, a: Action, t: Sys, b: nat)
    requires Inv(s) && Step(s, a, t) && !a.Tick? && Shaped(t)
    requires IsHome(s.g, |s.disk.base|, b) && (a.WriteDirect? ==> a.b != b)
    ensures t.next == s.next && LiveBufsIn(s) && LiveBufsIn(t)
    ensures b < |s.disk.base| == |t.disk.base| && Logical(t, b) == Logical(s, b)
  {
    hide PhysOf, JournalInv, View, Seed, Older, Taken, HomeOlder, BufsOlder, DirectOk, NodesHome, StagingOk, IsHome;
    hide Shaped, Logical, LiveTxns, LiveBufsIn;
    JournalParts(s);
    HomeBlock(s.g, |s.disk.base|, b);
    if a.Stage? {
      HomeBlock(s.g, |s.disk.base|, a.b);
    }
    if a.Fill? {
      StagedNotTaken(s, a.h, a.buf);
    }
    LogSame(s, t);
    assert LogOf(t).live == LogOf(s).live;
    if a.WriteDirect? {
      DoView(s.disk, Write(a.b, a.data), b);
    }
    LogicalSame(s, t, b);
  }

  lemma SameListTxns(s: Sys, t: Sys)
    requires LiveBufsIn(s) && t.bufs == s.bufs && LiveList(t) == LiveList(s)
    ensures LiveBufsIn(t) && LiveTxns(t) == LiveTxns(s)
  {}

  /** A published commit is one more live transaction. */
  lemma PublishTxns(s: Sys, t: Sys)
    requires Shaped(s) && LiveBufsIn(s) && s.pc.Committing? && s.next < U64 && t == Published(s)
    ensures BufsIn(s.pc.nodes, |s.bufs|) && LiveBufsIn(t) && t.disk == s.disk
    ensures LiveTxns(t) == LiveTxns(s) + [TxnOf(s.bufs, s.next, s.pc.nodes)]
  {
    hide PhysOf, Shaped, BufsIn, TxnOf;
    ShapedPc(s);
    assert LiveList(t) == LiveList(s) + [Publishing(s)];
    TxnsOfSnoc(s.bufs, LiveList(s), Publishing(s));
  }

  lemma PublishLogical(s: Sys, t: Sys, b: nat)
    requires JournalInv(s) && Shaped(s) && s.pc.Committing? && t == Published(s) && b < |s.disk.base|
    ensures LiveBufsIn(s) && LiveBufsIn(t) && Logical(t, b) == LogicalAfter(s, b)
  {
    hide PhysOf, Shaped, JournalInv, View, LiveTxns, Published, LiveBufsIn, NewestCopy, WellFormed, EncodeLog;
    JournalParts(s);
    PublishTxns(s, t);
    NewestSnoc(LiveTxns(s), TxnOf(s.bufs, s.next, s.pc.nodes), b);
  }

  lemma CommitLogical(s: Sys, t: Sys, b: nat)
    requires JournalInv(s) && Shaped(s) && s.pc.Committing? && CommitTick(s, t)
    requires IsHome(s.g, |s.disk.base|, b) && b < |s.disk.base|
    ensures LiveBufsIn(s) && LiveBufsIn(t) && |t.disk.base| == |s.disk.base|
    ensures t.next == s.next ==> Logical(t, b) == Logical(s, b)
    ensures t.next != s.next ==> Logical(t, b) == LogicalAfter(s, b)
  {
    hide PhysOf, Shaped, JournalInv, Published, CommitScript, View, IsHome, Logical, LogicalAfter, LiveTxns;
    JournalParts(s);
    if s.pc.done < |CommitScript(s)| {
      CommitScriptAway(s);
      SameListTxns(s, t);
      DoView(s.disk, CommitScript(s)[s.pc.done], b);
      LogicalSame(s, t, b);
    } else {
      PublishDisk(s, t);
      PublishNext(s, t);
      PublishLogical(s, t, b);
    }
  }

  lemma PublishNext(s: Sys, t: Sys)
    requires s.pc.Committing? && s.next < U64 && t == Published(s)
    ensures t.next == s.next + 1
  {}

  lemma {:induction false} OldestNewest(s: Sys, b: nat)
    requires JournalInv(s) && Shaped(s) && s.pc.Checkpointing?
    ensures LiveBufsIn(s) && LiveTxns(s) != []
    ensures LastCopy(GoingHome(s), b).Some? ==> NewestCopy(LiveTxns(s), b).Some?
    ensures NewestCopy(LiveTxns(s)[1..], b).None? ==> NewestCopy(LiveTxns(s), b) == LastCopy(GoingHome(s), b)
    ensures NewestCopy(LiveTxns(s)[1..], b).Some? ==> NewestCopy(LiveTxns(s), b) == NewestCopy(LiveTxns(s)[1..], b)
  {
    hide PhysOf, Shaped, JournalInv, GoingHome, LiveTxns;
    GoingIsOldest(s);
    assert LiveTxns(s) == [LiveTxns(s)[0]] + LiveTxns(s)[1..];
    NewestCons(LiveTxns(s)[0], LiveTxns(s)[1..], b);
  }

  lemma InstallLogical(s: Sys, t: Sys, b: nat)
    requires JournalInv(s) && Shaped(s) && s.pc.Checkpointing? && s.pc.done < |CheckpointScript(s)|
    requires IsHome(s.g, |s.disk.base|, b) && b < |s.disk.base|
    requires t.disk == Do(s.disk, CheckpointScript(s)[s.pc.done]) && t.bufs == s.bufs && LiveList(t) == LiveList(s)
    ensures LiveBufsIn(s) && LiveBufsIn(t) && Logical(t, b) == Logical(s, b)
  {
    hide PhysOf, Shaped, JournalInv, CheckpointScript, View, LiveTxns, Logical, GoingHome;
    JournalParts(s);
    SameListTxns(s, t);
    OldestNewest(s, b);
    ShapedTxn(s);
    CheckpointScriptHome(s);
    DoView(s.disk, CheckpointScript(s)[s.pc.done], b);
    if s.pc.done < |s.pc.txn.nodes| && s.pc.txn.nodes[s.pc.done].blockno == b {
      GoingTarget(s, b);
    }
    LogicalSame(s, t, b);
  }

  lemma {:induction false} GoingTarget(s: Sys, b: nat)
    requires Shaped(s) && s.pc.Checkpointing? && s.pc.done < |s.pc.txn.nodes| && s.pc.txn.nodes[s.pc.done].blockno == b
    ensures LastCopy(GoingHome(s), b).Some?
  {
    hide PhysOf, Shaped;
    ShapedTxn(s);
    LastCopyIndex(GoingHome(s), b);
    assert GoingHome(s)[s.pc.done].target == b;
  }

  lemma EndLogical(s: Sys, t: Sys, b: nat)
    requires JournalInv(s) && Shaped(s) && s.pc.Checkpointing? && s.pc.done >= |CheckpointScript(s)|
    requires b < |s.disk.base| && HomeOk(s, b)
    requires t == s.(tail := t.tail, pc := Resumed(s.pc.resume))
    ensures LiveBufsIn(s) && LiveBufsIn(t) && Logical(t, b) == Logical(s, b)
  {
    hide PhysOf, Shaped, JournalInv, CheckpointOps, NewTail, NewTailSequence, View, Settled;
    JournalParts(s);
    ShapedTxn(s);
    assert LiveList(t) == LiveList(s)[1..];
    assert LiveTxns(t) == LiveTxns(s)[1..];
    OldestNewest(s, b);
  }

  lemma CheckpointLogical(s: Sys, t: Sys, b: nat)
    requires JournalInv(s) && Shaped(s) && s.pc.Checkpointing? && CheckpointTick(s, t)
    requires IsHome(s.g, |s.disk.base|, b) && b < |s.disk.base| && HomeOk(s, b)
    ensures LiveBufsIn(s) && LiveBufsIn(t) && |t.disk.base| == |s.disk.base| && t.next == s.next
    ensures Logical(t, b) == Logical(s, b)
  {
    hide PhysOf, Shaped, JournalInv, CheckpointScript, CheckpointTick, View, IsHome, Logical, LiveTxns, HomeOk;
    hide Resumed;
    CheckpointCases(s, t);
    if s.pc.done < |CheckpointScript(s)| {
      InstallLogical(s, t, b);
    } else {
      EndLogical(s, t, b);
    }
  }

  lemma ForceLogical(s: Sys, t: Sys, b: nat)
    requires s.pc.Forcing? && LiveBufsIn(s) && ForceTick(s, t) && b < |s.disk.base|
    ensures LiveBufsIn(t) && |t.disk.base| == |s.disk.base| && t.next == s.next && Logical(t, b) == Logical(s, b)
  {
    hide View, Logical, LiveTxns;
    SameListTxns(s, t);
    DoView(s.disk, Flush, b);
    LogicalSame(s, t, b);
  }

  lemma TickLogical(s: Sys, nodes: seq<Node>, t: Sys, b: nat)
    requires Inv(s) && Shaped(s) && TickStep(s, t, nodes)
    requires IsHome(s.g, |s.disk.base|, b) && b < |s.disk.base| && HomeOk(s, b)
    ensures LiveBufsIn(s) && LiveBufsIn(t) && |t.disk.base| == |s.disk.base|
    ensures t.next == s.next ==> Logical(t, b) == Logical(s, b)
    ensures t.next != s.next ==> s.pc.Committing? && Logical(t, b) == LogicalAfter(s, b)
  {
    hide PhysOf, JournalInv, NodesHome, BufsOlder, HomeOlder, DirectOk, StagingOk, HandlesOk, Shaped, IsHome, HomeOk;
    hide WaitTick, FreezeTick, ReclaimTick, CommitTick, CheckpointTick, LagTick, DrainTick, ForceTick, Logical;
    hide LogicalAfter;
    JournalParts(s);
    match s.pc
    case Committing(_, _, _) => CommitLogical(s, t, b);
    case Checkpointing(_, _, _) => CheckpointLogical(s, t, b);
    case Forcing(_, _) => ForceLogical(s, t, b);
    case _ =>
      QuietTick(s, nodes, t);
      SameListTxns(s, t);
      LogicalSame(s, t, b);
  }

  /** The logical disk changes when a commit is published and at no other step. */
  lemma LogicalStep(s: Sys, a: Action, t: Sys, b: nat)
    requires Inv(s) && Step(s, a, t) && Shaped(s)
    requires IsHome(s.g, |s.disk.base|, b) && b < |s.disk.base| && HomeOk(s, b) && (a.WriteDirect? ==> a.b != b)
    ensures LiveBufsIn(s) && LiveBufsIn(t) && |t.disk.base| == |s.disk.base|
    ensures t.next == s.next ==> Logical(t, b) == Logical(s, b)
    ensures t.next != s.next ==> s.pc.Committing? && Logical(t, b) == LogicalAfter(s, b)
  {
    hide PhysOf, Step, TickStep, Inv, HomeOk, IsHome, Logical, LogicalAfter;
    ShapedStep(s, a, t);
    if a.Tick? {
      IsTick(s, a, t);
      TickLogical(s, a.nodes, t, b);
    } else {
      HandleLogical(s, a, t, b);
    }
  }
}
