/**
 What a block comes down to when nobody writes it any more and the thread goes on; and from
 that, exactly when data written directly can be overtaken by an older copy.
 */
module Overtaken {
  import opened Bytes
  import opened DiskFormat
  import opened Device
  import opened LogFormat
  import opened Replay
  import opened CrashSafety
  import opened Checkpoint
  import opened Pipeline
  import opened PipelineJournal
  import opened PipelineInv
  import opened LogicalDisk
  import opened CrashRuns
  import opened Generations
  import opened Reclaim
  import opened Lookup
  import opened LostUpdate
  import opened Syncs
  import opened OrderedData

  // ---- what a block comes down to ----

  /** Block b once the log has been written home: the newest listed copy, one going home, or the device. */
  function Due(s: Sys, b: nat): Block
    requires Shaped(s) && b < |s.disk.base|
  {
    ShapedLists(s);
    var c := FindCheckpointed(s.bufs, s.ckpt, b);
    if c.Some? then c.value
    else if LastCopy(CopiesLeft(s), b).Some? then LastCopy(CopiesLeft(s), b).value
    else View(s.disk, b)
  }

  /** And once the generation in flight, if it fits, has been committed too. */
  function DueAfter(s: Sys, b: nat): Block
    requires Shaped(s) && b < |s.disk.base|
  {
    if Commits(s.g, |PcNodes(s)|) && LastCopy(CopiesOnTheWay(s), b).Some? then LastCopy(CopiesOnTheWay(s), b).value
    else Due(s, b)
  }

  /** And everything that is staged. */
  function ComesTo(s: Sys, b: u64): Block
    requires Shaped(s) && b < |s.disk.base|
  {
    ShapedLists(s);
    if b in s.staged && Commits(s.g, |s.staged|) then s.bufs[s.staged[b]] else DueAfter(s, b)
  }

  // ---- under a step of the thread ----

  lemma {:induction false} DueSame(s: Sys, t: Sys, b: nat)
    requires Shaped(s) && Shaped(t) && b < |s.disk.base| == |t.disk.base| && t.bufs == s.bufs && t.ckpt == s.ckpt
    requires NodesLeft(t) == NodesLeft(s) && View(t.disk, b) == View(s.disk, b)
    ensures Due(t, b) == Due(s, b)
  {
    hide PhysOf, Shaped, View, FindCheckpointed;
  }

  /** The oldest on the list counts only if no newer one has a copy. */
  lemma {:induction false} FindFirst(bufs: seq<Block>, list: seq<Committed>, b: nat)
    requires list != [] && AllBufsIn(list, |bufs|)
    ensures AllBufsIn(list[1..], |bufs|) && BufsIn(list[0].nodes, |bufs|)
    ensures var rest := FindCheckpointed(bufs, list[1..], b);
            FindCheckpointed(bufs, list, b) == if rest.Some? then rest else LastCopy(CopiesOf(bufs, list[0].nodes), b)
  {
    FindIsNewest(bufs, list, b);
    FindIsNewest(bufs, list[1..], b);
    var t := TxnOf(bufs, list[0].sequence, list[0].nodes);
    assert TxnsOf(bufs, list) == [t] + TxnsOf(bufs, list[1..]);
    NewestCons(t, TxnsOf(bufs, list[1..]), b);
  }

  lemma PopDue(s: Sys, t: Sys, resume: Resume, b: nat)
    requires Shaped(s) && Shaped(t) && b < |s.disk.base| && s.ckpt != [] && !s.pc.Checkpointing?
             && t == PopOldest(s, resume)
    ensures b < |t.disk.base| && Due(t, b) == Due(s, b)
  {
    hide PhysOf, Shaped, View, FindCheckpointed, LastCopy;
    ShapedLists(s);
    FindFirst(s.bufs, s.ckpt, b);
    assert NodesLeft(t) == s.ckpt[0].nodes && NodesLeft(s) == [];
    NoCopies(b);
    assert CopiesLeft(s) == [];
  }

  lemma {:induction false} NoCopies(b: nat)
    ensures LastCopy([], b) == None
  {}

  lemma {:induction false} PublishDue(s: Sys, t: Sys, b: nat)
    requires Shaped(s) && Shaped(t) && b < |s.disk.base| && s.pc.Committing? && s.next < U64 && t == Published(s)
    ensures b < |t.disk.base|
    ensures var c := LastCopy(CopiesOnTheWay(s), b); Due(t, b) == if c.Some? then c.value else Due(s, b)
  {
    hide PhysOf, Shaped, View, LastCopy;
    ShapedLists(s);
    ShapedLists(t);
    assert t.ckpt[..|t.ckpt| - 1] == s.ckpt && t.ckpt[|t.ckpt| - 1].nodes == s.pc.nodes;
    assert NodesLeft(t) == [] && NodesLeft(s) == [];
    assert CopiesLeft(t) == [] && CopiesLeft(s) == [];
  }

  /** The first of the nodes left is written home. */
  lemma InstallDue(s: Sys, t: Sys, b: nat)
    requires Shaped(s) && Shaped(t) && s.pc.Checkpointing? && s.pc.done < |s.pc.txn.nodes| && b < |s.disk.base|
    requires s.pc.txn.nodes[s.pc.done].buf < |s.bufs|
    requires t.bufs == s.bufs && t.ckpt == s.ckpt && t.pc == Checkpointing(s.pc.txn, s.pc.done + 1, s.pc.resume)
    requires var node := s.pc.txn.nodes[s.pc.done]; t.disk == Do(s.disk, Write(node.blockno, s.bufs[node.buf]))
    ensures Due(t, b) == Due(s, b)
  {
    hide PhysOf, Shaped, View, FindCheckpointed;
    ShapedLists(s);
    ShapedTxn(s);
    var node := s.pc.txn.nodes[s.pc.done];
    DoView(s.disk, Write(node.blockno, s.bufs[node.buf]), b);
    assert NodesLeft(s) == [node] + NodesLeft(t);
    var first := Copy(node.blockno, s.bufs[node.buf]);
    assert CopiesLeft(s) == [first] + CopiesLeft(t);
    LastCopyConcat([first], CopiesLeft(t), b);
    assert [first][..0] == [];
  }

  lemma CheckpointDue(s: Sys, t: Sys, b: nat)
    requires Shaped(s) && Shaped(t) && s.pc.Checkpointing? && CheckpointTick(s, t) && IsHome(s.g, |s.disk.base|, b)
    requires b < |s.disk.base|
    ensures b < |t.disk.base| && Due(t, b) == Due(s, b)
  {
    hide PhysOf, Shaped, CheckpointScript, CheckpointTick, Due, View, Resumed;
    CheckpointCases(s, t);
    ScriptCoversNodes(s);
    if s.pc.done < |CheckpointScript(s)| {
      CheckpointScriptHome(s);
      if s.pc.done < |s.pc.txn.nodes| {
        ShapedTxn(s);
        InstallDue(s, t, b);
      } else {
        DoView(s.disk, CheckpointScript(s)[s.pc.done], b);
        DueSame(s, t, b);
      }
    } else {
      ResumedAway(s.pc.resume);
      DueSame(s, t, b);
    }
  }

  lemma ReclaimDue(s: Sys, t: Sys, b: nat)
    requires Shaped(s) && Shaped(t) && s.pc.Reclaiming? && ReclaimTick(s, t) && b < |s.disk.base|
    ensures b < |t.disk.base| && Due(t, b) == Due(s, b)
  {
    hide PhysOf, Shaped, ReclaimTick, PopOldest, Due, View;
    ReclaimCases(s, t);
    if s.ckpt != [] && t == PopOldest(s, ToReclaim(s.pc.nodes, s.pc.direct)) {
      PopFrame(s, t, ToReclaim(s.pc.nodes, s.pc.direct));
      PopDue(s, t, ToReclaim(s.pc.nodes, s.pc.direct), b);
    } else {
      DueSame(s, t, b);
    }
  }

  lemma {:induction false} CommitDue(s: Sys, t: Sys, b: nat)
    requires Shaped(s) && Shaped(t) && s.pc.Committing? && CommitTick(s, t) && IsHome(s.g, |s.disk.base|, b)
    requires b < |s.disk.base|
    ensures b < |t.disk.base|
    ensures var c := LastCopy(CopiesOnTheWay(s), b);
            Due(t, b) == if t.next != s.next && c.Some? then c.value else Due(s, b)
  {
    hide PhysOf, Shaped, CommitScript, Published, Due, View, IsHome;
    if s.pc.done < |CommitScript(s)| {
      CommitScriptAway(s);
      DoView(s.disk, CommitScript(s)[s.pc.done], b);
      DueSame(s, t, b);
    } else {
      PublishDisk(s, t);
      PublishNext(s, t);
      PublishDue(s, t, b);
    }
  }

  lemma LagDue(s: Sys, t: Sys, b: nat)
    requires Shaped(s) && Shaped(t) && s.pc.Lagging? && LagTick(s, t) && b < |s.disk.base|
    ensures b < |t.disk.base| && Due(t, b) == Due(s, b)
  {
    hide PhysOf, Shaped, PopOldest, Due, View;
    if |s.ckpt| > CKPT_LAG {
      PopFrame(s, t, ToLag);
      PopDue(s, t, ToLag, b);
    } else {
      DueSame(s, t, b);
    }
  }

  lemma DrainDue(s: Sys, t: Sys, b: nat)
    requires Shaped(s) && Shaped(t) && s.pc.Draining? && DrainTick(s, t) && b < |s.disk.base|
    ensures b < |t.disk.base| && Due(t, b) == Due(s, b)
  {
    hide PhysOf, Shaped, PopOldest, Due, View;
    if s.ckpt != [] {
      PopFrame(s, t, ToDrain);
      PopDue(s, t, ToDrain, b);
    } else {
      DueSame(s, t, b);
    }
  }

  lemma ForceDue(s: Sys, t: Sys, b: nat)
    requires Shaped(s) && Shaped(t) && s.pc.Forcing? && ForceTick(s, t) && b < |s.disk.base|
    ensures b < |t.disk.base| && Due(t, b) == Due(s, b)
  {
    hide PhysOf, Shaped, Due, View;
    DoView(s.disk, Flush, b);
    DueSame(s, t, b);
  }

  lemma FreezeDue(s: Sys, t: Sys, nodes: seq<Node>, b: nat)
    requires Shaped(s) && Shaped(t) && s.pc.Freezing? && FreezeTick(s, t, nodes) && b < |s.disk.base|
    ensures b < |t.disk.base| && Due(t, b) == Due(s, b)
  {
    hide PhysOf, Shaped, Due, View, Flattens;
    DueSame(s, t, b);
  }

  /** A publication lays its copies over what a block comes down to; no other step of the thread changes it. */
  lemma {:induction false} TickDue(s: Sys, nodes: seq<Node>, t: Sys, b: nat)
    requires Shaped(s) && Shaped(t) && TickStep(s, t, nodes) && IsHome(s.g, |s.disk.base|, b) && b < |s.disk.base|
    ensures b < |t.disk.base|
    ensures var c := LastCopy(CopiesOnTheWay(s), b);
            Due(t, b) == if t.next != s.next && c.Some? then c.value else Due(s, b)
  {
    hide PhysOf, Shaped, IsHome, Due, CopiesOnTheWay, View;
    hide FreezeTick, ForceTick, ReclaimTick, CommitTick, CheckpointTick, LagTick, DrainTick;
    TickFrame(s, nodes, t);
    match s.pc
    case Waiting => DueSame(s, t, b);
    case Freezing => FreezeDue(s, t, nodes, b);
    case Forcing(_, _) =>
      ForceDue(s, t, b);
      ForceNext(s, t);
    case Reclaiming(_, _) => ReclaimDue(s, t, b);
    case Committing(_, _, _) => CommitDue(s, t, b);
    case Checkpointing(_, _, _) =>
      CheckpointDue(s, t, b);
      CheckpointNext(s, t);
    case Lagging => LagDue(s, t, b);
    case Draining => DrainDue(s, t, b);
    case Stopped =>
  }

  lemma ForceNext(s: Sys, t: Sys)
    requires s.pc.Forcing? && ForceTick(s, t)
    ensures t.next == s.next
  {}

  lemma CheckpointNext(s: Sys, t: Sys)
    requires Shaped(s) && s.pc.Checkpointing? && CheckpointTick(s, t)
    ensures t.next == s.next
  {
    hide PhysOf, Shaped, CheckpointScript, CheckpointTick, Resumed;
    CheckpointCases(s, t);
  }

  lemma FlattenedSame(nodes: seq<Node>, staged: map<u64, nat>)
    requires Flattens(nodes, staged)
    ensures |nodes| == |staged|
  {
    FlattenedSize(nodes, staged);
    var bs := seq(|nodes|, k requires 0 <= k < |nodes| => nodes[k].blockno);
    Pigeonhole(bs, staged.Keys);
  }

  /** The turn of the thread: what is on its way is published if it fits, and given up otherwise. */
  lemma TurnDue(s: Sys, nodes: seq<Node>, t: Sys, b: nat)
    requires JournalInv(s) && s.running == s.next && Shaped(s) && Shaped(t) && TickStep(s, t, nodes) && !s.pc.Freezing?
    requires IsHome(s.g, |s.disk.base|, b) && b < |s.disk.base|
    ensures b < |t.disk.base| && DueAfter(t, b) == DueAfter(s, b)
  {
    hide PhysOf, JournalInv, Shaped, TickStep, IsHome, Due, OnTheWay, LastCopy, CopiesOf, Commits, FreezeTick;
    TickFrame(s, nodes, t);
    TickDue(s, nodes, t, b);
    TickTurn(s, nodes, t);
    PcBufs(s);
    NoCopies(b);
    if Finishes(s, t) {
      NothingFlies(t);
      NothingOnTheWay(t);
      if PcNodes(s) == [] {
        NothingOnTheWay(s);
      }
    } else {
      assert CopiesOnTheWay(t) == CopiesOnTheWay(s);
    }
  }

  lemma NothingFlies(s: Sys)
    requires !InFlight(s.pc)
    ensures PcNodes(s) == []
  {}

  /** At the snapshot what is staged takes its way. */
  lemma FreezeComes(s: Sys, t: Sys, nodes: seq<Node>, b: u64)
    requires Shaped(s) && Shaped(t) && s.pc.Freezing? && FreezeTick(s, t, nodes) && b < |s.disk.base|
    ensures b < |t.disk.base| && ComesTo(t, b) == ComesTo(s, b)
  {
    hide PhysOf, Shaped, Due, Flattens;
    FreezeDue(s, t, nodes, b);
    ShapedLists(s);
    FlattenedSame(nodes, s.staged);
    FlattenedBufsIn(s, nodes);
    FlattenedCopy(s.bufs, nodes, s.staged, b);
    NoCopies(b);
    assert CopiesOnTheWay(s) == [];
    assert CopiesOnTheWay(t) == CopiesOf(s.bufs, nodes);
  }

  /** What a block comes down to is in no step of the thread changed. */
  lemma TickComes(s: Sys, nodes: seq<Node>, t: Sys, b: u64)
    requires JournalInv(s) && s.running == s.next && Shaped(s) && Shaped(t) && TickStep(s, t, nodes)
    requires IsHome(s.g, |s.disk.base|, b) && b < |s.disk.base|
    ensures b < |t.disk.base| && ComesTo(t, b) == ComesTo(s, b)
  {
    hide PhysOf, JournalInv, Shaped, TickStep, IsHome, DueAfter, Commits, FreezeTick;
    TickFrame(s, nodes, t);
    if s.pc.Freezing? {
      FreezeComes(s, t, nodes, b);
    } else {
      TurnDue(s, nodes, t, b);
      ShapedLists(s);
      ShapedLists(t);
    }
  }

  /** Actions of others that write no block. */
  predicate Passive(a: Action) {
    a.Tick? || a.Stop? || a.Sync?
  }

  lemma PassiveComes(s: Sys, a: Action, t: Sys, b: u64)
    requires JournalInv(s) && s.running == s.next && Step(s, a, t) && Passive(a)
    requires Shaped(s) && Shaped(t) && IsHome(s.g, |s.disk.base|, b) && b < |s.disk.base|
    ensures b < |t.disk.base| && ComesTo(t, b) == ComesTo(s, b) && t.bufs == s.bufs
  {
    hide PhysOf, JournalInv, Step, Shaped, TickStep, IsHome, Due, Commits, StageStep;
    if a.Tick? {
      IsTick(s, a, t);
      TickFrame(s, a.nodes, t);
      TickComes(s, a.nodes, t, b);
    } else {
      HandleFacts(s, a, t);
      SameBufs(s, a, t);
      DueSame(s, t, b);
      ShapedLists(s);
      ShapedLists(t);
      assert CopiesOnTheWay(t) == CopiesOnTheWay(s);
    }
  }

  lemma SameBufs(s: Sys, a: Action, t: Sys)
    requires Step(s, a, t) && !a.Tick? && !a.Stage? && !a.Fill?
    ensures t.bufs == s.bufs
  {
    hide PhysOf, Shaped, View, Older, IsHome;
  }

  // ---- a direct write ----

  /** Some copy of block b can still come home. */
  predicate Pending(s: Sys, b: u64) {
    !Harmless(s, b, |s.bufs|)
  }

  /** No node of block b: with buffers below n, that is what having no old one means. */
  lemma {:induction false} NoneOld(bufs: seq<Block>, nodes: seq<Node>, b: u64)
    requires BufsIn(nodes, |bufs|)
    ensures NoOld(nodes, b, |bufs|) <==> LastCopy(CopiesOf(bufs, nodes), b).None?
  {
    var copies := CopiesOf(bufs, nodes);
    LastCopyIndex(copies, b);
    if !NoOld(nodes, b, |bufs|) {
      var k :| 0 <= k < |nodes| && nodes[k].blockno == b && nodes[k].buf < |bufs|;
      assert copies[k].target == b;
    }
    if LastCopy(copies, b).Some? {
      var k := LastIndex(copies, b);
      assert nodes[k].blockno == b && nodes[k].buf < |bufs|;
    }
  }

  lemma {:induction false} NoneListed(bufs: seq<Block>, list: seq<Committed>, b: u64)
    requires AllBufsIn(list, |bufs|)
    ensures ListNoOld(list, b, |bufs|) <==> FindCheckpointed(bufs, list, b).None?
    decreases |list|
  {
    hide NoOld;
    if list != [] {
      var front, last := list[..|list| - 1], list[|list| - 1];
      NoneListed(bufs, front, b);
      NoneOld(bufs, last.nodes, b);
      assert forall m :: 0 <= m < |front| ==> front[m] == list[m];
    }
  }

  /** After a direct write the block comes down to the data if and only if no older copy is pending. */
  lemma WriteComes(s: Sys, h: nat, b: u64, data: Block, t: Sys)
    requires Step(s, WriteDirect(h, b, data), t)
    ensures Shaped(s) && Shaped(t) && b < |s.disk.base| && b < |t.disk.base|
    ensures ComesTo(t, b) == if Pending(s, b) then ComesTo(s, b) else data
  {
    hide PhysOf, Step, Shaped, Due, Commits, StageStep, View, NoOld, ListNoOld;
    ShapedStep(s, WriteDirect(h, b, data), t);
    HandleFacts(s, WriteDirect(h, b, data), t);
    HomeBlock(s.g, |s.disk.base|, b);
    SameBufs(s, WriteDirect(h, b, data), t);
    ShapedLists(s);
    ShapedLists(t);
    PcBufs(s);
    LeftBufs(s);
    NoneOld(s.bufs, PcNodes(s), b);
    NoneOld(s.bufs, NodesLeft(s), b);
    NoneListed(s.bufs, s.ckpt, b);
    assert CopiesOnTheWay(t) == CopiesOnTheWay(s);
    DueWritten(s, t, b, data);
  }

  lemma {:induction false} DueWritten(s: Sys, t: Sys, b: u64, data: Block)
    requires Shaped(s) && Shaped(t) && b < |s.disk.base| && t.disk == Do(s.disk, Write(b, data))
    requires t.bufs == s.bufs && t.ckpt == s.ckpt && t.pc == s.pc
    ensures AllBufsIn(s.ckpt, |s.bufs|)
    ensures var pending := FindCheckpointed(s.bufs, s.ckpt, b).Some? || LastCopy(CopiesLeft(s), b).Some?;
            Due(t, b) == if pending then Due(s, b) else data
  {
    hide PhysOf, Shaped, View, FindCheckpointed;
    ShapedLists(s);
    ShapedLists(t);
    DoView(s.disk, Write(b, data), b);
    assert NodesLeft(t) == NodesLeft(s);
  }

  // ---- driving the thread ----

  predicate Goes(r: Story) {
    |r.states| == |r.actions| + 1
  }

  /** q goes on from r by steps in which nobody writes, and leaves b with what it came down to. */
  ghost predicate PlaysOn(r: Story, q: Story, b: u64) {
    && Goes(r) && Goes(q) && Continues(r, q) && IsRun(q.states, q.actions)
    && (forall k :: |r.actions| <= k < |q.actions| ==> Passive(q.actions[k]))
    && (forall k :: |r.states| <= k < |q.states| ==> q.states[k].bufs == Now(r).bufs)
    && var s, t := Now(r), Now(q);
       && t.g == s.g && t.bufs == s.bufs && t.shutdown == s.shutdown && t.disk.base == s.disk.base
       && Shaped(s) && Shaped(t) && b < |s.disk.base| && ComesTo(t, b) == ComesTo(s, b)
  }

  lemma PlaysOnParts(r: Story, q: Story, b: u64)
    requires PlaysOn(r, q, b)
    ensures Goes(r) && Goes(q) && Continues(r, q) && IsRun(q.states, q.actions) && Shaped(Now(q)) && Shaped(Now(r))
    ensures b < |Now(q).disk.base| == |Now(r).disk.base| && Now(q).g == Now(r).g && Now(q).shutdown == Now(r).shutdown
    ensures Now(q).bufs == Now(r).bufs && q.states[0] == r.states[0] && ComesTo(Now(q), b) == ComesTo(Now(r), b)
  {
    hide PhysOf, Shaped, IsRun, ComesTo;
  }

  lemma StandStill(r: Story, b: u64)
    requires Goes(r) && IsRun(r.states, r.actions) && Shaped(Now(r)) && b < |Now(r).disk.base|
    ensures PlaysOn(r, r, b)
  {
    hide PhysOf, Shaped, IsRun, ComesTo;
  }

  lemma OneMore(p: Story, r: Story, b: u64, a: Action, t: Sys) returns (q: Story)
    requires PlaysOn(p, r, b) && Init(r.states[0]) && Step(Now(r), a, t) && Passive(a) && t.shutdown == Now(r).shutdown
    requires IsHome(Now(r).g, |Now(r).disk.base|, b)
    ensures q == Then(r, a, t) && PlaysOn(p, q, b) && Now(q) == t && Goes(q)
  {
    hide PhysOf, Shaped, Step, Init, Inv, ComesTo, IsHome;
    q := Then(r, a, t);
    var n := |r.actions|;
    assert Now(r) == r.states[n];
    RunShape(r.states, r.actions, n);
    InvParts(Now(r));
    NumbersAt(r.states, r.actions, n);
    ShapedStep(Now(r), a, t);
    PassiveComes(Now(r), a, t, b);
    PassiveBase(Now(r), a, t);
    forall k | 0 <= k < |q.actions| ensures Step(q.states[k], q.actions[k], q.states[k + 1]) {
      if k < n {
        assert Step(r.states[k], r.actions[k], r.states[k + 1]);
      }
    }
  }

  lemma PassiveBase(s: Sys, a: Action, t: Sys)
    requires Step(s, a, t) && Passive(a)
    ensures t.disk.base == s.disk.base
  {
    hide PhysOf, Step, Shaped, TickStep, StageStep;
    if a.Tick? {
      IsTick(s, a, t);
      TickFrame(s, a.nodes, t);
    } else {
      HandleFacts(s, a, t);
    }
  }

  /** The thread drains, or has stopped, only after shutdown. */
  predicate Drains(pc: Pc) {
    pc.Draining? || pc.Stopped? || (pc.Checkpointing? && pc.resume.ToDrain?)
  }

  lemma DrainsStep(s: Sys, a: Action, t: Sys)
    requires Step(s, a, t) && (Drains(s.pc) ==> s.shutdown)
    ensures Drains(t.pc) ==> t.shutdown
  {
    hide PhysOf, Step, Shaped, TickStep, StageStep;
    ShutdownStep(s, a, t);
    if a.Tick? {
      IsTick(s, a, t);
      TickDrains(s, a.nodes, t);
    } else {
      HandleFacts(s, a, t);
    }
  }

  lemma TickDrains(s: Sys, nodes: seq<Node>, t: Sys)
    requires Shaped(s) && TickStep(s, t, nodes)
    ensures Drains(t.pc) ==> Drains(s.pc) || s.shutdown
  {
    hide PhysOf, Shaped, WaitTick, FreezeTick, ForceTick, ReclaimTick, CommitTick, CheckpointTick, LagTick, DrainTick;
    match s.pc
    case Waiting => WaitDrains(s, t);
    case Freezing => FreezeDrains(s, t, nodes);
    case Forcing(_, _) => ForceDrains(s, t);
    case Reclaiming(_, _) => ReclaimDrains(s, t);
    case Committing(_, _, _) => CommitDrains(s, t);
    case Checkpointing(_, _, _) => CheckpointDrains(s, t);
    case Lagging => LagDrains(s, t);
    case _ =>
  }

  lemma WaitDrains(s: Sys, t: Sys)
    requires WaitTick(s, t)
    ensures Drains(t.pc) ==> s.shutdown
  {}

  lemma FreezeDrains(s: Sys, t: Sys, nodes: seq<Node>)
    requires FreezeTick(s, t, nodes)
    ensures !Drains(t.pc)
  {
    hide Flattens;
  }

  lemma ForceDrains(s: Sys, t: Sys)
    requires s.pc.Forcing? && ForceTick(s, t)
    ensures !Drains(t.pc)
  {}

  lemma LagDrains(s: Sys, t: Sys)
    requires LagTick(s, t)
    ensures !Drains(t.pc)
  {
    hide PopOldest;
    if |s.ckpt| > CKPT_LAG {
      PopFrame(s, t, ToLag);
    }
  }

  lemma ReclaimDrains(s: Sys, t: Sys)
    requires s.pc.Reclaiming? && ReclaimTick(s, t)
    ensures !Drains(t.pc)
  {
    hide ReclaimTick, PopOldest;
    ReclaimCases(s, t);
    if s.ckpt != [] && t == PopOldest(s, ToReclaim(s.pc.nodes, s.pc.direct)) {
      PopFrame(s, t, ToReclaim(s.pc.nodes, s.pc.direct));
    }
  }

  lemma CommitDrains(s: Sys, t: Sys)
    requires Shaped(s) && s.pc.Committing? && CommitTick(s, t)
    ensures !Drains(t.pc)
  {
    hide PhysOf, Shaped, CommitScript, Published;
    if s.pc.done >= |CommitScript(s)| {
      PublishFrame(s, t);
    }
  }

  lemma CheckpointDrains(s: Sys, t: Sys)
    requires Shaped(s) && s.pc.Checkpointing? && CheckpointTick(s, t)
    ensures Drains(t.pc) ==> Drains(s.pc)
  {
    hide PhysOf, Shaped, CheckpointScript, CheckpointTick;
    CheckpointCases(s, t);
  }

  lemma {:induction false} DrainsShut(states: seq<Sys>, actions: seq<Action>, i: nat)
    requires IsRun(states, actions) && Init(states[0]) && i < |states|
    ensures Drains(states[i].pc) ==> states[i].shutdown
  {
    hide PhysOf, Step, Shaped, Stable, HomeOlder;
    if i > 0 {
      DrainsShut(states, actions, i - 1);
      assert Step(states[i - 1], actions[i - 1], states[i - 1 + 1]);
      DrainsStep(states[i - 1], actions[i - 1], states[i]);
    }
  }

  /** How far the thread is from waiting again. */
  function Phase(pc: Pc): nat {
    match pc
    case Forcing(_, _) => 4
    case Reclaiming(_, _) => 3
    case Checkpointing(_, _, resume) => if resume.ToReclaim? then 3 else 1
    case Committing(_, _, _) => 2
    case Lagging => 1
    case _ => 0
  }

  /** Operations left of the script the thread is in, and the step that ends it. */
  function ToDo(s: Sys): nat
    requires Shaped(s)
  {
    if s.pc.Committing? && s.next < U64 && |s.pc.nodes| <= MAX_TAGS && s.pc.done <= |CommitScript(s)| then
      |CommitScript(s)| - s.pc.done + 1
    else if s.pc.Checkpointing? && s.pc.done <= |CheckpointScript(s)| then |CheckpointScript(s)| - s.pc.done + 1
    else 0
  }

  lemma DoneBound(s: Sys)
    requires JournalInv(s) && Shaped(s) && s.pc.Checkpointing?
    ensures s.pc.done <= |CheckpointScript(s)|
  {
    hide PhysOf, Shaped, Tiles, Moving, CheckpointScript, OldestOps, WellFormed, EncodeLog, LiveTxns;
    Scripts(s);
  }

  /** Numbers and offsets for one more commit. */
  predicate HasNumber(s: Sys) {
    s.next + 1 < U64 && s.head + MAX_TAGS + 2 < EMPTY
  }

  /** What the thread has used up of the numbers since s. */
  predicate Spends(s: Sys, t: Sys) {
    && s.next <= t.next <= s.next + 1 && s.head <= t.head <= s.head + MAX_TAGS + 2
    && (t.next == s.next ==> t.head == s.head)
    && (Phase(t.pc) >= 2 ==> t.next == s.next) && Phase(t.pc) <= Phase(s.pc)
    && (Phase(s.pc) < 2 ==> t.next == s.next)
  }

  lemma ForceGoes(s: Sys) returns (t: Sys)
    requires Shaped(s) && s.pc.Forcing?
    ensures ForceTick(s, t) && Spends(s, t) && Phase(t.pc) < Phase(s.pc)
  {
    hide PhysOf, Shaped;
    t := s.(pc := if s.pc.nodes == [] then Lagging else Reclaiming(s.pc.nodes, s.pc.direct),
            completed := if s.pc.nodes == [] then s.running else s.completed,
            disk := if s.ordered && s.pc.direct != [] then Do(s.disk, Flush) else s.disk);
  }

  lemma ReclaimGoes(s: Sys) returns (t: Sys)
    requires s.pc.Reclaiming? && HasNumber(s)
    ensures ReclaimTick(s, t) && Spends(s, t)
    ensures Phase(t.pc) < Phase(s.pc) || (Phase(t.pc) == Phase(s.pc) && |t.ckpt| < |s.ckpt|)
  {
    hide Spends, Refused, FreeSpace, SpaceNeeded;
    if MustReclaim(s) {
      t := PopOldest(s, ToReclaim(s.pc.nodes, s.pc.direct));
      PopSpends(s, t, ToReclaim(s.pc.nodes, s.pc.direct));
      PopIsReclaim(s, t);
    } else if Refused(s) {
      t := GivenUp(s);
      GiveUpIsReclaim(s, t);
    } else {
      t := s.(pc := Committing(s.pc.nodes, s.pc.direct, 0));
      AheadIsReclaim(s, t);
    }
  }

  lemma PopSpends(s: Sys, t: Sys, resume: Resume)
    requires s.ckpt != [] && t == PopOldest(s, resume)
    requires Phase(s.pc) == if resume.ToReclaim? then 3 else 1
    ensures Spends(s, t) && Phase(t.pc) == Phase(s.pc) && |t.ckpt| < |s.ckpt|
  {}

  lemma PopIsReclaim(s: Sys, t: Sys)
    requires s.pc.Reclaiming? && MustReclaim(s) && t == PopOldest(s, ToReclaim(s.pc.nodes, s.pc.direct))
    ensures ReclaimTick(s, t)
  {
    hide PopOldest, FreeSpace, SpaceNeeded;
  }

  lemma GiveUpIsReclaim(s: Sys, t: Sys)
    requires s.pc.Reclaiming? && !MustReclaim(s) && Refused(s) && t == GivenUp(s)
    ensures ReclaimTick(s, t) && Spends(s, t) && Phase(t.pc) < Phase(s.pc)
  {
    hide FreeSpace, SpaceNeeded;
  }

  lemma AheadIsReclaim(s: Sys, t: Sys)
    requires s.pc.Reclaiming? && !MustReclaim(s) && !Refused(s) && HasNumber(s)
    requires t == s.(pc := Committing(s.pc.nodes, s.pc.direct, 0))
    ensures ReclaimTick(s, t) && Spends(s, t) && Phase(t.pc) < Phase(s.pc)
  {
    hide FreeSpace;
  }

  lemma CommitGoes(s: Sys) returns (t: Sys)
    requires Shaped(s) && s.pc.Committing? && s.next < U64 && |s.pc.nodes| <= MAX_TAGS
    ensures CommitTick(s, t) && Spends(s, t)
    ensures || Phase(t.pc) < Phase(s.pc)
            || (s.pc.done < |CommitScript(s)|
                && t == s.(disk := t.disk, pc := Committing(s.pc.nodes, s.pc.direct, s.pc.done + 1)))
  {
    hide PhysOf, Shaped, CommitScript, Published, Spends;
    if s.pc.done < |CommitScript(s)| {
      t := s.(disk := Do(s.disk, CommitScript(s)[s.pc.done]), pc := Committing(s.pc.nodes, s.pc.direct, s.pc.done + 1));
      OpSpends(s, t);
    } else {
      t := Published(s);
      PublishSpends(s, t);
    }
  }

  lemma OpSpends(s: Sys, t: Sys)
    requires t == s.(disk := t.disk, pc := t.pc) && Phase(t.pc) == Phase(s.pc)
    ensures Spends(s, t)
  {}

  lemma PublishSpends(s: Sys, t: Sys)
    requires s.pc.Committing? && s.next < U64 && |s.pc.nodes| <= MAX_TAGS && t == Published(s)
    ensures Spends(s, t) && Phase(t.pc) < Phase(s.pc)
  {}

  lemma CheckpointGoes(s: Sys) returns (t: Sys)
    requires Shaped(s) && s.pc.Checkpointing? && !s.pc.resume.ToDrain?
    ensures CheckpointTick(s, t) && Spends(s, t)
    ensures if s.pc.done < |CheckpointScript(s)| then
              t == s.(disk := t.disk, pc := Checkpointing(s.pc.txn, s.pc.done + 1, s.pc.resume))
            else t == s.(tail := t.tail, pc := Resumed(s.pc.resume)) && Phase(t.pc) == Phase(s.pc)
  {
    hide PhysOf, Shaped, CheckpointScript, NewTail;
    if s.pc.done < |CheckpointScript(s)| {
      t := s.(disk := Do(s.disk, CheckpointScript(s)[s.pc.done]),
                  pc := Checkpointing(s.pc.txn, s.pc.done + 1, s.pc.resume));
    } else {
      t := s.(tail := NewTail(s), pc := Resumed(s.pc.resume));
    }
  }

  lemma LagGoes(s: Sys) returns (t: Sys)
    requires Shaped(s) && s.pc.Lagging?
    ensures LagTick(s, t) && Spends(s, t)
    ensures Phase(t.pc) < Phase(s.pc) || (Phase(t.pc) == Phase(s.pc) && |t.ckpt| < |s.ckpt|)
  {
    hide PhysOf, Shaped;
    if |s.ckpt| > CKPT_LAG {
      t := PopOldest(s, ToLag);
    } else {
      t := s.(pc := Waiting);
    }
  }

  predicate Nearer(s: Sys, t: Sys)
    requires Shaped(s) && Shaped(t)
  {
    || Phase(t.pc) < Phase(s.pc)
    || (Phase(t.pc) == Phase(s.pc) && |t.ckpt| < |s.ckpt|)
    || (Phase(t.pc) == Phase(s.pc) && |t.ckpt| == |s.ckpt| && ToDo(t) < ToDo(s))
  }

  lemma CommitNears(s: Sys) returns (t: Sys)
    requires JournalInv(s) && Shaped(s) && s.pc.Committing?
    ensures TickStep(s, t, []) && Spends(s, t) && Shaped(t) && Nearer(s, t)
  {
    hide PhysOf, JournalInv, Shaped, CommitTick, TickStep, Spends, CommitScript, ToDo;
    CommittingSmall(s);
    t := CommitGoes(s);
    IsCommitStep(s, t);
    TickShaped(s, t);
    if Phase(t.pc) >= Phase(s.pc) {
      ToDoLess(s, t);
    }
  }

  lemma CheckpointNears(s: Sys) returns (t: Sys)
    requires JournalInv(s) && Shaped(s) && s.pc.Checkpointing? && !s.pc.resume.ToDrain?
    ensures TickStep(s, t, []) && Spends(s, t) && Shaped(t) && Nearer(s, t)
  {
    hide PhysOf, JournalInv, Shaped, CheckpointTick, TickStep, Spends, CheckpointScript, ToDo;
    DoneBound(s);
    t := CheckpointGoes(s);
    IsCheckpoint(s, t);
    TickShaped(s, t);
    ToDoLess(s, t);
  }

  /** One step of a thread that is in a turn, or tidying up after one, brings it nearer to waiting. */
  lemma OneTick(s: Sys) returns (t: Sys)
    requires JournalInv(s) && Shaped(s) && Phase(s.pc) > 0 && !Drains(s.pc) && (Phase(s.pc) >= 3 ==> HasNumber(s))
    ensures TickStep(s, t, []) && Spends(s, t) && Shaped(t) && Nearer(s, t)
  {
    hide PhysOf, JournalInv, Shaped, ForceTick, ReclaimTick, LagTick, TickStep, Spends, HasNumber, ToDo;
    if s.pc.Committing? {
      t := CommitNears(s);
    } else if s.pc.Checkpointing? {
      t := CheckpointNears(s);
    } else if s.pc.Forcing? {
      t := ForceGoes(s);
      IsForce(s, t);
      TickShaped(s, t);
    } else if s.pc.Reclaiming? {
      t := ReclaimGoes(s);
      IsReclaimStep(s, t);
      TickShaped(s, t);
    } else {
      t := LagGoes(s);
      IsLag(s, t);
      TickShaped(s, t);
    }
  }

  lemma IsForce(s: Sys, t: Sys)
    requires Shaped(s) && s.pc.Forcing? && ForceTick(s, t)
    ensures TickStep(s, t, [])
  {
    hide PhysOf, Shaped, ForceTick;
  }

  lemma IsReclaimStep(s: Sys, t: Sys)
    requires Shaped(s) && s.pc.Reclaiming? && ReclaimTick(s, t)
    ensures TickStep(s, t, [])
  {
    hide PhysOf, Shaped, ReclaimTick;
  }

  lemma IsCommitStep(s: Sys, t: Sys)
    requires Shaped(s) && s.pc.Committing? && CommitTick(s, t)
    ensures TickStep(s, t, [])
  {
    hide PhysOf, Shaped, CommitTick;
  }

  lemma IsCheckpoint(s: Sys, t: Sys)
    requires Shaped(s) && s.pc.Checkpointing? && CheckpointTick(s, t)
    ensures TickStep(s, t, [])
  {
    hide PhysOf, Shaped, CheckpointTick;
  }

  lemma IsLag(s: Sys, t: Sys)
    requires Shaped(s) && s.pc.Lagging? && LagTick(s, t)
    ensures TickStep(s, t, [])
  {
    hide PhysOf, Shaped, LagTick;
  }

  lemma CommittingSmall(s: Sys)
    requires JournalInv(s) && s.pc.Committing?
    ensures s.next < U64 && |s.pc.nodes| <= MAX_TAGS
  {
    hide PhysOf, Shaped, JournalOk, Tiles;
  }

  lemma TickShaped(s: Sys, t: Sys)
    requires Shaped(s) && TickStep(s, t, [])
    ensures Shaped(t)
  {
    hide PhysOf, Shaped, TickStep;
    ShapedTick(s, [], t);
  }

  lemma ToDoLess(s: Sys, t: Sys)
    requires Shaped(s) && Shaped(t)
    requires || (s.pc.Committing? && s.next < U64 && |s.pc.nodes| <= MAX_TAGS && s.pc.done < |CommitScript(s)|
                 && t == s.(disk := t.disk, pc := Committing(s.pc.nodes, s.pc.direct, s.pc.done + 1)))
             || (s.pc.Checkpointing? && s.pc.done < |CheckpointScript(s)|
                 && t == s.(disk := t.disk, pc := Checkpointing(s.pc.txn, s.pc.done + 1, s.pc.resume)))
             || (s.pc.Checkpointing? && s.pc.done == |CheckpointScript(s)|
                 && t == s.(tail := t.tail, pc := Resumed(s.pc.resume)))
    ensures ToDo(t) < ToDo(s)
  {
    hide PhysOf, Shaped, CommitOps, CheckpointOps, CopiesOf, NewTail, NewTailSequence;
  }

  /** What no step of the thread in a turn touches. */
  predicate SameTable(s: Sys, t: Sys) {
    && t.staged == s.staged && t.gen == s.gen && t.handles == s.handles && t.syncs == s.syncs
    && t.shutdown == s.shutdown
  }

  lemma TickSameTable(s: Sys, t: Sys)
    requires Shaped(s) && TickStep(s, t, []) && !s.pc.Freezing?
    ensures SameTable(s, t)
  {
    hide PhysOf, Shaped, TickStep, FreezeTick;
    TickFrame(s, [], t);
  }

  lemma SpendsOn(s: Sys, t: Sys, u: Sys)
    requires Spends(s, t) && Spends(t, u)
    ensures Spends(s, u)
  {
    hide Phase;
  }

  lemma PhaseZero(s: Sys)
    requires Phase(s.pc) == 0 && !Drains(s.pc)
    ensures s.pc.Waiting? || s.pc.Freezing?
  {}

  /** The thread goes on until it waits again; at most one commit is published on the way. */
  lemma {:induction false} Drive(p: Story, r: Story, b: u64) returns (q: Story)
    requires Goes(r) && PlaysOn(p, r, b) && Init(r.states[0]) && IsHome(Now(r).g, |Now(r).disk.base|, b)
    requires !Now(r).shutdown && !Now(r).pc.Freezing? && Shaped(Now(r)) && (Phase(Now(r).pc) >= 3 ==> HasNumber(Now(r)))
    ensures Goes(q) && PlaysOn(p, q, b) && q.states[0] == r.states[0] && Now(q).pc == Waiting
    ensures Spends(Now(r), Now(q)) && SameTable(Now(r), Now(q)) && Continues(r, q)
    decreases Phase(Now(r).pc), |Now(r).ckpt|, ToDo(Now(r))
  {
    hide PhysOf, Init, Inv, Shaped, IsRun, ComesTo, IsHome, Spends, ToDo, HasNumber, TickStep, PlaysOn, SameTable;
    var s := Now(r);
    var n := |r.actions|;
    PlaysOnParts(p, r, b);
    assert s == r.states[n];
    RunShape(r.states, r.actions, n);
    InvParts(s);
    DrainsShut(r.states, r.actions, n);
    q := r;
    if Phase(s.pc) == 0 {
      PhaseZero(s);
      NothingSpent(s);
    } else {
      var t := OneTick(s);
      TickSameTable(s, t);
      IsAStep(s, t);
      SameTableParts(s, t);
      var m := OneMore(p, r, b, Tick([]), t);
      PlaysOnParts(p, m, b);
      StillNumbered(s, t);
      NotFreezing(s, t);
      q := Drive(p, m, b);
      SpendsOn(s, t, Now(q));
      SameTableOn(s, t, Now(q));
    }
  }

  lemma IsAStep(s: Sys, t: Sys)
    requires Shaped(s) && TickStep(s, t, [])
    ensures Step(s, Tick([]), t)
  {
    hide PhysOf, Shaped, TickStep;
  }

  lemma SameTableParts(s: Sys, t: Sys)
    requires SameTable(s, t)
    ensures t.shutdown == s.shutdown
  {}

  lemma SameTableOn(s: Sys, t: Sys, u: Sys)
    requires SameTable(s, t) && SameTable(t, u)
    ensures SameTable(s, u)
  {}

  lemma NothingSpent(s: Sys)
    ensures Spends(s, s) && SameTable(s, s)
  {}

  lemma StillNumbered(s: Sys, t: Sys)
    requires Spends(s, t) && (Phase(s.pc) >= 3 ==> HasNumber(s))
    ensures Phase(t.pc) >= 3 ==> HasNumber(t)
  {}

  lemma NotFreezing(s: Sys, t: Sys)
    requires Shaped(s) && TickStep(s, t, []) && Phase(s.pc) > 0
    ensures !t.pc.Freezing?
  {
    hide PhysOf, Shaped, ReclaimTick, CommitTick, CheckpointTick, LagTick;
    match s.pc
    case Reclaiming(_, _) => ReclaimFrame(s, t);
    case Committing(_, _, _) => CommitFrame(s, t);
    case Checkpointing(_, _, _) => CheckpointFrame(s, t);
    case Lagging => LagFrame(s, t);
    case _ =>
  }

  lemma {:induction false} StopAll(p: Story, r: Story, b: u64) returns (q: Story)
    requires Goes(r) && PlaysOn(p, r, b) && Init(r.states[0]) && IsHome(Now(r).g, |Now(r).disk.base|, b)
    ensures Goes(q) && PlaysOn(p, q, b) && Continues(r, q) && Now(q) == Now(r).(handles := map[])
    decreases |Now(r).handles|
  {
    hide PhysOf, Init, Shaped, IsRun, ComesTo, IsHome, PlaysOn;
    PlaysOnParts(p, r, b);
    var s := Now(r);
    if s.handles == map[] {
      q := r;
    } else {
      var h :| h in s.handles;
      var t := s.(handles := s.handles - {h});
      assert |t.handles| < |s.handles| by {
        assert t.handles.Keys < s.handles.Keys;
      }
      StopIsStep(s, h);
      var m := OneMore(p, r, b, Stop(h), t);
      q := StopAll(p, m, b);
    }
  }

  lemma StopIsStep(s: Sys, h: nat)
    requires Shaped(s) && h in s.handles
    ensures Step(s, Stop(h), s.(handles := s.handles - {h}))
  {
    hide PhysOf, Shaped;
  }

  /** Every table can be flattened. */
  lemma {:induction false} SomeOrder(staged: map<u64, nat>) returns (nodes: seq<Node>)
    ensures Flattens(nodes, staged)
    decreases |staged|
  {
    hide Flattens;
    if staged == map[] {
      nodes := [];
      NothingFlattened();
    } else {
      var b :| b in staged;
      var rest := staged - {b};
      assert rest.Keys == staged.Keys - {b};
      var front := SomeOrder(rest);
      nodes := front + [Node(b, staged[b])];
      OneMoreNode(front, rest, staged, b);
    }
  }

  lemma NothingFlattened()
    ensures Flattens([], map[])
  {}

  lemma OneMoreNode(front: seq<Node>, rest: map<u64, nat>, staged: map<u64, nat>, b: u64)
    requires Flattens(front, rest) && b in staged && rest == staged - {b}
    ensures Flattens(front + [Node(b, staged[b])], staged)
  {
    var nodes := front + [Node(b, staged[b])];
    forall c | c in staged ensures exists i :: 0 <= i < |nodes| && nodes[i] == Node(c, staged[c]) {
      if c == b {
        assert nodes[|front|] == Node(c, staged[c]);
      } else {
        assert c in rest;
        var i :| 0 <= i < |front| && front[i] == Node(c, rest[c]);
        assert nodes[i] == Node(c, staged[c]);
      }
    }
  }

  lemma {:induction false} Upper(xs: set<nat>) returns (n: nat)
    ensures forall x :: x in xs ==> x < n
    decreases |xs|
  {
    if xs == {} {
      n := 0;
    } else {
      var x :| x in xs;
      var rest := xs - {x};
      var m := Upper(rest);
      assert forall y :: y in xs ==> y == x || y in rest;
      n := if x < m then m else x + 1;
    }
  }

  /** The thread wakes up for a sync, if it waits, and gets ready for the snapshot. */
  lemma WakeUp(p: Story, r: Story, b: u64) returns (q: Story)
    requires Goes(r) && PlaysOn(p, r, b) && Init(r.states[0]) && IsHome(Now(r).g, |Now(r).disk.base|, b)
    requires !Now(r).shutdown && (Now(r).pc.Waiting? || Now(r).pc.Freezing?)
    ensures Goes(q) && PlaysOn(p, q, b) && Continues(r, q) && Now(q).pc.Freezing?
    ensures Now(q) == Now(r).(pc := Freezing, freezing := Now(q).freezing, requested := Now(q).requested,
                              syncs := Now(q).syncs)
  {
    hide PhysOf, Init, Shaped, IsRun, ComesTo, IsHome, PlaysOn;
    PlaysOnParts(p, r, b);
    q := r;
    if Now(r).pc.Waiting? {
      var s := Now(r);
      var c := Upper(s.syncs.Keys);
      assert c !in s.syncs;
      var t := s.(requested := true, syncs := s.syncs[c := s.running]);
      SyncIsStep(s, c);
      q := OneMore(p, q, b, Sync(c), t);
      PlaysOnParts(p, q, b);
      var u := t.(freezing := true, pc := Freezing);
      WaitIsStep(t, u);
      q := OneMore(p, q, b, Tick([]), u);
    }
  }

  lemma SyncIsStep(s: Sys, c: nat)
    requires Shaped(s) && c !in s.syncs
    ensures Step(s, Sync(c), s.(requested := true, syncs := s.syncs[c := s.running]))
  {
    hide PhysOf, Shaped;
  }

  lemma WaitIsStep(s: Sys, t: Sys)
    requires Shaped(s) && s.pc.Waiting? && s.requested && !s.shutdown && t == s.(freezing := true, pc := Freezing)
    ensures Step(s, Tick([]), t)
  {
    hide PhysOf, Shaped;
  }

  /** And takes it. */
  lemma TakeIt(p: Story, r: Story, b: u64) returns (q: Story)
    requires Goes(r) && PlaysOn(p, r, b) && Init(r.states[0]) && IsHome(Now(r).g, |Now(r).disk.base|, b)
    requires Now(r).pc.Freezing? && Now(r).handles == map[]
    ensures Goes(q) && PlaysOn(p, q, b) && |q.actions| == |r.actions| + 1 && q.states[|r.actions|] == Now(r)
    ensures Continues(r, q) && q.actions[|r.actions|].Tick? && Now(q).pc.Forcing? && Now(q).staged == map[]
    ensures Now(q).next == Now(r).next && Now(q).head == Now(r).head && !Now(q).freezing
  {
    hide PhysOf, Init, Shaped, IsRun, ComesTo, IsHome, PlaysOn;
    PlaysOnParts(p, r, b);
    var s := Now(r);
    var nodes := SomeOrder(s.staged);
    var t := s.(staged := map[], direct := [], requested := false, freezing := false, gen := s.gen + 1,
                pc := Forcing(nodes, s.direct));
    FreezeIsStep(s, nodes, t);
    q := OneMore(p, r, b, Tick(nodes), t);
  }

  lemma FreezeIsStep(s: Sys, nodes: seq<Node>, t: Sys)
    requires Shaped(s) && s.pc.Freezing? && s.handles == map[] && Flattens(nodes, s.staged)
    requires t == s.(staged := map[], direct := [], requested := false, freezing := false, gen := s.gen + 1,
                     pc := Forcing(nodes, s.direct))
    ensures Step(s, Tick(nodes), t)
  {
    hide PhysOf, Shaped, Flattens;
  }

  /** Numbers and offsets for the commit in progress and one more. */
  predicate HasNumbers(s: Sys) {
    s.next + 2 < U64 && s.head + 2 * (MAX_TAGS + 2) < EMPTY
  }

  lemma NumbersLeft(s: Sys, t: Sys)
    requires HasNumbers(s)
    ensures HasNumber(s) && (Spends(s, t) ==> HasNumber(t))
  {}

  /**
   Nobody writes any more: the handles stop, the thread finishes what it is doing, takes the
   snapshot of the running generation in step k, and finishes with that.
   */
  lemma PlayOut(p: Story, r: Story, b: u64) returns (q: Story, k: nat)
    requires Goes(r) && PlaysOn(p, r, b) && Init(r.states[0]) && IsHome(Now(r).g, |Now(r).disk.base|, b)
    requires !Now(r).shutdown && HasNumbers(Now(r))
    ensures Goes(q) && PlaysOn(p, q, b) && Continues(r, q) && Now(q).pc == Waiting && Now(q).staged == map[]
    ensures |r.actions| <= k < |q.actions| && k + 1 < |q.states| - 1
    ensures Snapshot(q.states, q.actions, k) && q.states[k].gen == Now(r).gen
  {
    hide PhysOf, Init, Shaped, IsRun, ComesTo, IsHome, PlaysOn, Phase, Spends, HasNumber, HasNumbers;
    PlaysOnParts(p, r, b);
    q := StopAll(p, r, b);
    PlaysOnParts(p, q, b);
    NumbersLeft(Now(r), Now(q));
    SameNumbers(Now(r), Now(q));
    if !Now(q).pc.Freezing? {
      var w := Drive(p, q, b);
      NumbersLeft(Now(q), Now(w));
      q := w;
      PlaysOnParts(p, q, b);
    }
    ghost var before := Now(q);
    q := WakeUp(p, q, b);
    PlaysOnParts(p, q, b);
    k := |q.actions|;
    q := TakeIt(p, q, b);
    PlaysOnParts(p, q, b);
    NumberKept(before, Now(q));
    ghost var forcing := q;
    q := Drive(p, q, b);
    PlaysOnParts(p, q, b);
    assert q.states[k + 1] == Now(forcing) && q.states[k] == forcing.states[k];
  }

  lemma SameNumbers(s: Sys, t: Sys)
    requires t.next == s.next && t.head == s.head && HasNumbers(s)
    ensures HasNumbers(t) && HasNumber(t)
  {}

  lemma NumberKept(s: Sys, t: Sys)
    requires t.next == s.next && t.head == s.head
    ensures HasNumber(s) ==> HasNumber(t)
  {}

  // ---- exactly when direct data is overtaken ----

  /** With the thread waiting and nothing staged, a crash image that recovers block b to what it comes down to. */
  lemma CrashDown(s: Sys, b: u64) returns (img: Image)
    requires Inv(s) && Shaped(s) && s.pc.Waiting? && s.staged == map[] && b < |s.disk.base|
    ensures CrashImage(s.disk, img) && Fits(s.g, |img|) && b < |img| && RecoveredBlock(img, s.g, b) == ComesTo(s, b)
  {
    hide PhysOf, Inv, Shaped, JournalInv, RecoveredTxns, RecoveredBlock, View, May, LiveTxns;
    InvParts(s);
    ShapedLists(s);
    img := seq(|s.disk.base|, x requires 0 <= x < |s.disk.base| => View(s.disk, x));
    forall x | 0 <= x < |img| ensures May(s.disk, x, img[x]) {
      ViewMay(s.disk, x);
    }
    StillCrash(s, img);
    PlainLive(s);
    RecoveredIs(img, s.g, b, LiveTxns(s));
    CkptNewest(s, b);
    NothingOnTheWay(s);
    NoCopies(b);
    assert GoingHome(s) == [] && CopiesLeft(s) == [];
  }

  /** What an old buffer holds is no newer write, if nobody wrote anything. */
  lemma NotNewer(r: Story, p: Story, q: Story, h: nat, b: u64, data: Block, w: Block)
    requires Goes(r) && PlaysOn(p, q, b) && Continues(r, q) && |p.actions| == |r.actions| + 1
    requires q.actions[|r.actions|] == WriteDirect(h, b, data) && w != data
    requires Now(p).bufs == Now(r).bufs
    ensures Goes(q) && !NewerWrite(q.states, q.actions, |r.actions|, |q.states| - 1, b, w)
  {
    hide PhysOf, Shaped, IsRun, ComesTo;
    var i, n := |r.actions|, |Now(r).bufs|;
    assert q.states[i] == Now(r);
    forall x: nat | i <= x < |q.states| - 1 ensures !NewerAt(q.states, q.actions, n, x, b, w) {
      if x > i {
        assert Passive(q.actions[x]);
        assert q.states[x].bufs == Now(p).bufs by {
          if x == |p.states| - 1 {
            assert q.states[x] == p.states[x];
          }
        }
      }
    }
  }

  /** A run that goes on from r with h writing data to b, the snapshot of that generation, and a later crash. */
  ghost predicate CrashAfter(r: Story, q: Story, h: nat, b: u64, data: Block, k: nat, m: nat, j: nat, img: Image) {
    var i := |r.actions|;
    && Goes(q) && IsRun(q.states, q.actions) && Continues(r, q) && i < k < m <= j < |q.states|
    && q.actions[i] == WriteDirect(h, b, data) && Snapshot(q.states, q.actions, k)
    && i < |q.states| && q.states[k].gen == q.states[i].gen && !q.states[m].pc.Forcing?
    && CrashImage(q.states[j].disk, img)
  }

  ghost predicate ShowsIt(r: Story, q: Story, b: u64, j: nat, img: Image) {
    && Goes(q) && |r.actions| < |q.states| && j < |q.states|
    && Fits(q.states[j].g, |img|) && b < |img|
    && NewerWrite(q.states, q.actions, |r.actions|, j, b, RecoveredBlock(img, q.states[j].g, b))
  }

  /** Whatever h writes to b now, however the run goes on: it outlives every crash from its commit on. */
  ghost predicate Outlives(r: Story, h: nat, b: u64) {
    forall q: Story, data: Block, k: nat, m: nat, j: nat, img: Image ::
      CrashAfter(r, q, h, b, data, k, m, j, img) ==> ShowsIt(r, q, b, j, img)
  }

  lemma HarmlessOutlives(r: Story, h: nat, b: u64)
    requires Goes(r) && IsRun(r.states, r.actions) && Init(r.states[0]) && Harmless(Now(r), b, |Now(r).bufs|)
    ensures Outlives(r, h, b)
  {
    hide PhysOf, IsRun, Init, Harmless, NewerWrite, CrashImage, RecoveredBlock;
    forall q: Story, data: Block, k: nat, m: nat, j: nat, img: Image | CrashAfter(r, q, h, b, data, k, m, j, img)
      ensures ShowsIt(r, q, b, j, img)
    {
      assert q.states[|r.actions|] == Now(r) && q.states[0] == r.states[0];
      RunOrdered(q.states, q.actions, |r.actions|, k, m, j, img);
    }
  }

  lemma WriteStory(r: Story, h: nat, b: u64, data: Block) returns (p: Story)
    requires Goes(r) && IsRun(r.states, r.actions) && Init(r.states[0]) && Shaped(Now(r)) && Now(r).ordered
    requires h in Now(r).handles && IsHome(Now(r).g, |Now(r).disk.base|, b) && Older(data, Now(r).next)
    requires b < |Now(r).disk.base|
    ensures Goes(p) && Continues(r, p) && |p.actions| == |r.actions| + 1 && IsRun(p.states, p.actions)
    ensures p.actions[|r.actions|] == WriteDirect(h, b, data) && Step(Now(r), WriteDirect(h, b, data), Now(p))
    ensures Now(p) == Now(r).(disk := Do(Now(r).disk, Write(b, data)), direct := Now(r).direct + [|Now(r).disk.log|])
  {
    hide PhysOf, Init, Shaped, View, Older, IsHome;
    var s := Now(r);
    var t := s.(disk := Do(s.disk, Write(b, data)), direct := s.direct + [|s.disk.log|]);
    p := Then(r, WriteDirect(h, b, data), t);
    forall k | 0 <= k < |p.actions| ensures Step(p.states[k], p.actions[k], p.states[k + 1]) {
      if k < |r.actions| {
        assert Step(r.states[k], r.actions[k], r.states[k + 1]);
      }
    }
  }

  /** With an older copy pending there is data that is written, flushed, and gone after a crash. */
  lemma PendingOvertakes(r: Story, h: nat, b: u64)
    returns (q: Story, data: Block, k: nat, img: Image)
    requires Goes(r) && IsRun(r.states, r.actions) && Init(r.states[0]) && Shaped(Now(r)) && Now(r).ordered
    requires h in Now(r).handles && IsHome(Now(r).g, |Now(r).disk.base|, b) && b < |Now(r).disk.base|
    requires !Now(r).shutdown && HasNumbers(Now(r)) && Pending(Now(r), b)
    ensures Goes(q) && CrashAfter(r, q, h, b, data, k, |q.states| - 1, |q.states| - 1, img)
    ensures !ShowsIt(r, q, b, |q.states| - 1, img)
    ensures Fits(Now(r).g, |img|) && b < |img| && RecoveredBlock(img, Now(r).g, b) == ComesTo(Now(r), b) != data
  {
    hide PhysOf, Init, Inv, Shaped, IsRun, ComesTo, IsHome, PlaysOn, HasNumbers, Pending, Older, NewerWrite, CrashImage;
    hide RecoveredBlock, Snapshot;
    var s := Now(r);
    data := OtherBlock(ComesTo(s, b), s.next);
    var p := WriteStory(r, h, b, data);
    WriteComes(s, h, b, data, Now(p));
    StandStill(p, b);
    StillNumbers(s, Now(p));
    q, k := PlayOut(p, p, b);
    PlaysOnParts(p, q, b);
    var j := |q.states| - 1;
    RunShape(q.states, q.actions, j);
    img := CrashDown(q.states[j], b);
    NotNewer(r, p, q, h, b, data, ComesTo(s, b));
    assert q.states[|r.actions|] == Now(r) && q.actions[|r.actions|] == p.actions[|r.actions|];
  }

  lemma StillNumbers(s: Sys, t: Sys)
    requires HasNumbers(s) && t.next == s.next && t.head == s.head
    ensures HasNumbers(t)
  {}

  /**
   Exactly when data written directly is safe. Whatever handle h writes to b, however the run
   goes on and wherever it crashes once the generation is being committed, recovery shows that
   data or newer data, if and only if no older copy of b can still come home: none listed,
   none off the list and unwritten, none staged or in flight with a generation that fits.
   */
  lemma DirectExact(r: Story, h: nat, b: u64)
    requires Goes(r) && IsRun(r.states, r.actions) && Init(r.states[0]) && Shaped(Now(r)) && Now(r).ordered
    requires h in Now(r).handles && IsHome(Now(r).g, |Now(r).disk.base|, b) && b < |Now(r).disk.base|
    requires !Now(r).shutdown && HasNumbers(Now(r))
    ensures Outlives(r, h, b) <==> Harmless(Now(r), b, |Now(r).bufs|)
  {
    hide PhysOf, Init, Inv, Shaped, IsRun, IsHome, HasNumbers, CrashAfter, ShowsIt, Harmless;
    if Harmless(Now(r), b, |Now(r).bufs|) {
      HarmlessOutlives(r, h, b);
    } else {
      var q, data, k, img := PendingOvertakes(r, h, b);
    }
  }

  /** v is committed to b and listed, and a second handle has started. */
  lemma Listed(s0: Sys, b: u64, v: Block) returns (r: Story)
    requires Ready(s0, b) && Older(v, s0.next)
    ensures Tells(r, s0, b, v) && Shaped(Now(r))
    ensures var t := Now(r);
            t.pc == Waiting && t.bufs == [v] && t.staged == map[] && t.handles == map[1 := Handle(s0.gen + 1, {})]
            && t.g == s0.g && t.ordered == s0.ordered && t.disk.base == s0.disk.base && t.next == s0.next + 1
            && t.ckpt == [Committed(s0.next, s0.head, [Node(b, 0)], [])]
  {
    hide PhysOf, Shaped, View, IsHome, Older, Stable, HomeOlder, LastWritten, IsRun;
    r := Story([s0], []);
    BeginsTale(s0, b);
    r := StartAndStage(r, s0, b, View(s0.disk, b), 0);
    r := FillIt(r, s0, b, View(s0.disk, b), 0, v);
    r := StopHandle(r, s0, b, v, 0);
    assert Now(r).handles == map[];
    r := TakeSnapshot(r, s0, b, v, 0);
    r := CommitOne(r, s0, b, v, Node(b, 0));
    r := Forward(r, s0, b, v, Tick([]), Now(r).(pc := Waiting));
    var s := Now(r);
    r := Forward(r, s0, b, v, Start(1), s.(handles := map[1 := Handle(s.gen, {})], born := s.born[1 := s.gen]));
  }

  /**
   The run, from every beginning of a session in ordered mode: v is committed to b and listed,
   then data is written to b directly. Nothing of b is in flight, the device holds the data,
   and the lookup returns v.
   */
  lemma StaleRead(s0: Sys, b: u64, v: Block, data: Block) returns (r: Story)
    requires Ready(s0, b) && s0.ordered && Older(v, s0.next) && Older(data, s0.next)
    ensures Goes(r) && IsRun(r.states, r.actions) && r.states[0] == s0 && r.actions != []
    ensures r.actions[|r.actions| - 1] == WriteDirect(1, b, data)
    ensures var t := Now(r);
            Shaped(t) && b < |t.disk.base| && AllBufsIn(t.ckpt, |t.bufs|) && b !in t.staged && !Hidden(t, b)
            && View(t.disk, b) == data && ReadBlock(t, b) == v
  {
    hide PhysOf, Shaped, View, IsHome, Older, Stable, HomeOlder, LastWritten, IsRun;
    r := Listed(s0, b, v);
    var s := Now(r);
    OlderOn(data, s0.next);
    r := WriteStory(r, 1, b, data);
    ShapedStep(s, WriteDirect(1, b, data), Now(r));
    ReadsListed(s, Now(r), b, v, data);
  }

  lemma {:induction false} ReadsListed(s: Sys, t: Sys, b: u64, v: Block, data: Block)
    requires Shaped(t) && t.pc == Waiting && t.staged == map[] && t.bufs == [v] && t.disk == Do(s.disk, Write(b, data))
    requires b < |s.disk.base| && |t.ckpt| == 1 && t.ckpt[0].nodes == [Node(b, 0)]
    ensures AllBufsIn(t.ckpt, |t.bufs|) && !Hidden(t, b) && View(t.disk, b) == data && ReadBlock(t, b) == v
  {
    hide PhysOf, Shaped, View;
    ShapedLists(t);
    DoView(s.disk, Write(b, data), b);
    NothingHidden(t, b);
    assert CopiesOf(t.bufs, [Node(b, 0)])[0] == Copy(b, v);
  }

  lemma OlderOn(v: Block, n: nat)
    requires Older(v, n)
    ensures Older(v, n + 1)
  {
    OlderLater(v, n);
  }
}
