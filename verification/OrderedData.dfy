/**
 Ordered mode: data blocks a generation wrote straight to the device are durable before its
 transaction can be recovered, and no older copy of theirs comes back over them, if none is
 still on its way home when they are written.
 */
module OrderedData {
  import opened Bytes
  import opened DiskFormat
  import opened Device
  import opened LogFormat
  import opened Replay
  import opened CrashSafety
  import opened Checkpoint
  import opened Pipeline
  import opened PipelineJournal
  import opened PipelineInv
  import opened LogicalDisk
  import opened CrashRuns
  import opened Generations
  import opened Reclaim
  import opened Lookup

  // ---- the list of direct writes is complete ----

  lemma DirectKept(s: Sys, a: Action, t: Sys, pos: nat)
    requires Step(s, a, t) && pos in s.direct && !(a.Tick? && s.pc.Freezing?)
    ensures pos in t.direct
  {
    hide PhysOf, Shaped, TickStep, View, Older, Seed;
    if a.Tick? {
      TickFrame(s, a.nodes, t);
    } else if a.Stage? {
      HomeBlock(s.g, |s.disk.base|, a.b);
    }
  }

  lemma {:induction false} DirectWhile(states: seq<Sys>, actions: seq<Action>, i: nat, k: nat, pos: nat)
    requires IsRun(states, actions) && Init(states[0]) && i <= k < |states| && pos in states[i].direct
    requires states[i].gen == states[k].gen
    ensures pos in states[k].direct
    decreases k
  {
    hide PhysOf, Step, Init, HandlesOk;
    if i < k {
      var m := k - 1;
      GenGrows(states, actions, i, m);
      GenGrows(states, actions, m, k);
      HandlesAt(states, actions, m);
      assert Step(states[m], actions[m], states[m + 1]);
      GenStep(states[m], actions[m], states[k]);
      DirectWhile(states, actions, i, m, pos);
      DirectKept(states[m], actions[m], states[k], pos);
    }
  }

  /** The snapshot of a generation takes the position of every data write of its handles. */
  lemma SnapshotHasDirect(states: seq<Sys>, actions: seq<Action>, i: nat, k: nat)
    requires IsRun(states, actions) && Init(states[0]) && Snapshot(states, actions, k)
    requires i < k && actions[i].WriteDirect? && states[i].gen == states[k].gen
    ensures states[k + 1].pc.Forcing? && |states[i].disk.log| in states[k + 1].pc.direct
    ensures states[i + 1].disk.log == states[i].disk.log + [Write(actions[i].b, actions[i].data)]
  {
    hide PhysOf, IsRun, Init, HandlesOk, Shaped, Flattens;
    RunSizes(states, actions);
    WriteAt(states, actions, i);
    GenGrows(states, actions, i, i + 1);
    GenGrows(states, actions, i + 1, k);
    DirectWhile(states, actions, i + 1, k, |states[i].disk.log|);
    SnapshotIs(states, actions, k);
  }

  lemma WriteAt(states: seq<Sys>, actions: seq<Action>, i: nat)
    requires IsRun(states, actions) && i < |actions| && actions[i].WriteDirect?
    ensures |states[i].disk.log| in states[i + 1].direct
    ensures states[i + 1].disk.log == states[i].disk.log + [Write(actions[i].b, actions[i].data)]
  {
    hide PhysOf, Shaped, Older;
    assert Step(states[i], actions[i], states[i + 1]);
    var d := states[i].direct;
    assert (d + [|states[i].disk.log|])[|d|] == |states[i].disk.log|;
  }

  // ---- from the write to every later crash ----

  lemma StepExtends(s: Sys, a: Action, t: Sys)
    requires Step(s, a, t)
    ensures Extends(s.disk, t.disk)
  {
    hide PhysOf, Step, Shaped, TickStep;
    if a.Tick? {
      IsTick(s, a, t);
      TickFrame(s, a.nodes, t);
    } else {
      HandleFacts(s, a, t);
    }
  }

  lemma {:induction false} RunExtends(states: seq<Sys>, actions: seq<Action>, i: nat, j: nat)
    requires IsRun(states, actions) && i <= j < |states|
    ensures Extends(states[i].disk, states[j].disk)
    decreases j
  {
    hide PhysOf, Step;
    if i < j {
      RunExtends(states, actions, i, j - 1);
      assert Step(states[j - 1], actions[j - 1], states[j - 1 + 1]);
      StepExtends(states[j - 1], actions[j - 1], states[j]);
    }
  }

  lemma FlushedLater(d: Disk, e: Disk, pos: nat)
    requires Extends(d, e) && Flushed(d, pos)
    ensures Flushed(e, pos)
  {
    var f :| pos < f < |d.log| && d.log[f].Flush?;
    assert e.log[f].Flush?;
  }

  /** The write is still to be forced, or has been. */
  ghost predicate Forced(s: Sys, pos: nat) {
    (s.pc.Forcing? && pos in s.pc.direct) || Flushed(s.disk, pos)
  }

  lemma ForcedStep(s: Sys, a: Action, t: Sys, pos: nat)
    requires DirectOk(s) && Step(s, a, t) && Forced(s, pos)
    ensures Forced(t, pos)
  {
    hide PhysOf, Shaped, View, Older, Seed, IsHome, DirectFlushed, ListDirect, Flushed, TickStep;
    StepExtends(s, a, t);
    if Flushed(s.disk, pos) {
      FlushedLater(s.disk, t.disk, pos);
    } else if a.Tick? {
      ForcingTick(s, a.nodes, t);
      assert PcDirect(s) == s.pc.direct;
      FlushFlushes(s.disk, s.g, s.pc.direct);
      FlushedIn(Do(s.disk, Flush), s.pc.direct, pos);
    } else {
      if a.Stage? {
        HomeBlock(s.g, |s.disk.base|, a.b);
      }
      assert t.pc == s.pc;
    }
  }

  lemma FlushedIn(d: Disk, xs: seq<nat>, pos: nat)
    requires DirectFlushed(d, xs) && pos in xs
    ensures Flushed(d, pos)
  {
    hide Flushed;
  }

  lemma {:induction false} ForcedSince(states: seq<Sys>, actions: seq<Action>, k: nat, j: nat, pos: nat)
    requires IsRun(states, actions) && Init(states[0]) && k <= j < |states| && Forced(states[k], pos)
    ensures Forced(states[j], pos)
    decreases j
  {
    hide PhysOf, Step, Init, Forced, JournalInv, HandlesOk, StagingOk, NodesHome, BufsOlder, HomeOlder, DirectOk;
    hide Unshared;
    if k < j {
      ForcedSince(states, actions, k, j - 1, pos);
      RunInv(states, actions, j - 1);
      assert Step(states[j - 1], actions[j - 1], states[j - 1 + 1]);
      ForcedStep(states[j - 1], actions[j - 1], states[j], pos);
    }
  }

  lemma ExtendsAt(d: Disk, e: Disk, pos: nat)
    requires Extends(d, e) && pos < |d.log|
    ensures pos < |e.log| && e.log[pos] == d.log[pos]
  {}

  lemma WrittenHome(states: seq<Sys>, actions: seq<Action>, i: nat)
    requires IsRun(states, actions) && i < |actions| && actions[i].WriteDirect?
    ensures actions[i].b < |states[i].disk.base|
  {
    hide PhysOf, Shaped, Older;
    assert Step(states[i], actions[i], states[i + 1]);
    HomeBlock(states[i].g, |states[i].disk.base|, actions[i].b);
  }

  // ---- older copies ----

  /** Every node of block b has a buffer numbered n or more. */
  predicate NoOld(nodes: seq<Node>, b: u64, n: nat) {
    forall k :: 0 <= k < |nodes| && nodes[k].blockno == b ==> nodes[k].buf >= n
  }

  predicate ListNoOld(list: seq<Committed>, b: u64, n: nat) {
    forall m :: 0 <= m < |list| ==> NoOld(list[m].nodes, b, n)
  }

  /**
   No copy of block b in a buffer below n can come home any more: none is on the checkpoint
   list or off it and not yet written, and none is staged or on its way to the journal unless
   with a generation too big to be committed.
   */
  predicate Harmless(s: Sys, b: u64, n: nat) {
    && (b in s.staged && s.staged[b] < n ==> !Commits(s.g, |s.staged|))
    && (NoOld(PcNodes(s), b, n) || !Commits(s.g, |PcNodes(s)|))
    && ListNoOld(s.ckpt, b, n)
    && NoOld(NodesLeft(s), b, n)
  }

  /** Nor is one in the transaction going home, written or not. */
  predicate Gone(s: Sys, b: u64, n: nat) {
    s.pc.Checkpointing? ==> NoOld(s.pc.txn.nodes, b, n)
  }

  lemma PopHarmless(s: Sys, t: Sys, resume: Resume, b: u64, n: nat)
    requires Harmless(s, b, n) && s.ckpt != [] && t == PopOldest(s, resume)
    requires PcNodes(s) == if resume.ToReclaim? then resume.nodes else []
    ensures Harmless(t, b, n) && Gone(t, b, n)
  {
    assert NodesLeft(t) == s.ckpt[0].nodes;
  }

  /** Steps after which less is left than before. */
  lemma MoveHarmless(s: Sys, t: Sys, b: u64, n: nat)
    requires Harmless(s, b, n) && t.ckpt == s.ckpt && t.staged == s.staged && t.g == s.g
    requires PcNodes(t) == PcNodes(s) || PcNodes(t) == []
    requires || NodesLeft(t) == NodesLeft(s) || NodesLeft(t) == []
             || (NodesLeft(s) != [] && NodesLeft(t) == NodesLeft(s)[1..])
    ensures Harmless(t, b, n)
  {
    hide PcNodes;
    var left := NodesLeft(s);
    forall k | 0 <= k < |NodesLeft(t)| && NodesLeft(t)[k].blockno == b ensures NodesLeft(t)[k].buf >= n {
      assert NodesLeft(t) == left || NodesLeft(t)[k] == left[k + 1];
    }
  }

  lemma PublishHarmless(s: Sys, t: Sys, b: u64, n: nat)
    requires Harmless(s, b, n) && s.pc.Committing? && s.next < U64 && t == Published(s) && Commits(s.g, |s.pc.nodes|)
    ensures Harmless(t, b, n)
  {
    assert PcNodes(s) == s.pc.nodes && NodesLeft(t) == [] && t.ckpt == s.ckpt + [Publishing(s)];
  }

  /** A snapshot lists as many nodes as blocks were staged. */
  lemma FlattenedSize(nodes: seq<Node>, staged: map<u64, nat>)
    requires Flattens(nodes, staged)
    ensures |nodes| >= |staged|
  {
    var bs := seq(|nodes|, k requires 0 <= k < |nodes| => nodes[k].blockno);
    forall b | b in staged.Keys ensures b in bs {
      var k :| 0 <= k < |nodes| && nodes[k] == Node(b, staged[b]);
      assert bs[k] == b;
    }
    Covering(staged.Keys, bs);
  }

  lemma FreezeHarmless(s: Sys, t: Sys, nodes: seq<Node>, b: u64, n: nat)
    requires Harmless(s, b, n) && s.pc.Freezing? && FreezeTick(s, t, nodes)
    ensures Harmless(t, b, n)
  {
    FlattenedSize(nodes, s.staged);
    assert PcNodes(t) == nodes && NodesLeft(t) == [];
    if !NoOld(nodes, b, n) {
      var k :| 0 <= k < |nodes| && nodes[k].blockno == b && nodes[k].buf < n;
      assert s.staged[b] == nodes[k].buf;
    }
  }

  lemma ReclaimHarmless(s: Sys, t: Sys, b: u64, n: nat)
    requires Harmless(s, b, n) && s.pc.Reclaiming? && ReclaimTick(s, t)
    ensures Harmless(t, b, n) && Gone(t, b, n)
  {
    hide ReclaimTick, PopOldest, Harmless;
    ReclaimCases(s, t);
    if s.ckpt != [] && t == PopOldest(s, ToReclaim(s.pc.nodes, s.pc.direct)) {
      PopHarmless(s, t, ToReclaim(s.pc.nodes, s.pc.direct), b, n);
    } else {
      MoveHarmless(s, t, b, n);
    }
  }

  lemma CommitHarmless(s: Sys, t: Sys, b: u64, n: nat)
    requires JournalInv(s) && Shaped(s) && Harmless(s, b, n) && s.pc.Committing? && CommitTick(s, t)
    ensures Harmless(t, b, n) && Gone(t, b, n)
  {
    hide PhysOf, JournalInv, Shaped, CommitScript, Published, Harmless;
    CommittingFits(s);
    if s.pc.done < |CommitScript(s)| {
      MoveHarmless(s, t, b, n);
    } else {
      PublishFrame(s, t);
      PublishHarmless(s, t, b, n);
    }
  }

  lemma CheckpointHarmless(s: Sys, t: Sys, b: u64, n: nat)
    requires Shaped(s) && Harmless(s, b, n) && s.pc.Checkpointing? && CheckpointTick(s, t)
    ensures Harmless(t, b, n) && (Gone(s, b, n) ==> Gone(t, b, n))
  {
    hide PhysOf, Shaped, CheckpointScript, CheckpointTick, Harmless;
    CheckpointCases(s, t);
    if s.pc.done < |s.pc.txn.nodes| {
      assert s.pc.done < |CheckpointScript(s)| by {
        ScriptCoversNodes(s);
      }
      assert s.pc.txn.nodes[s.pc.done..][1..] == s.pc.txn.nodes[s.pc.done + 1..];
    }
    MoveHarmless(s, t, b, n);
  }

  lemma ScriptCoversNodes(s: Sys)
    requires Shaped(s) && s.pc.Checkpointing?
    ensures |CheckpointScript(s)| == |s.pc.txn.nodes| + 3
  {
    hide PhysOf, Shaped;
    ShapedTxn(s);
  }

  lemma LagHarmless(s: Sys, t: Sys, b: u64, n: nat)
    requires Harmless(s, b, n) && s.pc.Lagging? && LagTick(s, t)
    ensures Harmless(t, b, n) && Gone(t, b, n)
  {
    hide PopOldest, Harmless;
    if |s.ckpt| > CKPT_LAG {
      PopHarmless(s, t, ToLag, b, n);
    } else {
      MoveHarmless(s, t, b, n);
    }
  }

  lemma DrainHarmless(s: Sys, t: Sys, b: u64, n: nat)
    requires Harmless(s, b, n) && s.pc.Draining? && DrainTick(s, t)
    ensures Harmless(t, b, n) && Gone(t, b, n)
  {
    hide PopOldest, Harmless;
    if s.ckpt != [] {
      PopHarmless(s, t, ToDrain, b, n);
    } else {
      MoveHarmless(s, t, b, n);
    }
  }

  lemma TickHarmless(s: Sys, nodes: seq<Node>, t: Sys, b: u64, n: nat)
    requires JournalInv(s) && Shaped(s) && TickStep(s, t, nodes) && Harmless(s, b, n)
    ensures Harmless(t, b, n) && (Gone(s, b, n) ==> Gone(t, b, n))
  {
    hide PhysOf, JournalInv, Shaped, FreezeTick, ReclaimTick, CommitTick, CheckpointTick, LagTick, DrainTick, Harmless;
    match s.pc
    case Waiting => MoveHarmless(s, t, b, n);
    case Freezing =>
      FreezeHarmless(s, t, nodes, b, n);
      FreezeGone(s, t, nodes, b, n);
    case Forcing(_, _) => MoveHarmless(s, t, b, n);
    case Reclaiming(_, _) => ReclaimHarmless(s, t, b, n);
    case Committing(_, _, _) => CommitHarmless(s, t, b, n);
    case Checkpointing(_, _, _) => CheckpointHarmless(s, t, b, n);
    case Lagging => LagHarmless(s, t, b, n);
    case Draining => DrainHarmless(s, t, b, n);
    case Stopped =>
  }

  lemma FreezeGone(s: Sys, t: Sys, nodes: seq<Node>, b: u64, n: nat)
    requires FreezeTick(s, t, nodes)
    ensures Gone(t, b, n)
  {
    hide Flattens;
  }

  lemma StageHarmless(s: Sys, h: nat, c: u64, b: u64, n: nat)
    requires Shaped(s) && h in s.handles && c < |s.disk.base| && Harmless(s, b, n) && n <= |s.bufs|
    ensures Harmless(StageStep(s, h, c), b, n)
  {
    hide PhysOf, Shaped, StageStep;
    var t := StageStep(s, h, c);
    StageFacts(s, h, c);
    assert PcNodes(t) == PcNodes(s) && NodesLeft(t) == NodesLeft(s);
    if c !in s.staged {
      assert t.staged.Keys == s.staged.Keys + {c};
    }
  }

  /** Once harmless, older copies of a block stay so, whatever happens. */
  lemma HarmlessStep(s: Sys, a: Action, t: Sys, b: u64, n: nat)
    requires JournalInv(s) && Step(s, a, t) && Harmless(s, b, n) && n <= |s.bufs|
    ensures Harmless(t, b, n) && (Gone(s, b, n) ==> Gone(t, b, n)) && |s.bufs| <= |t.bufs|
  {
    hide PhysOf, JournalInv, Step, TickStep, Shaped, Harmless, StageStep;
    if a.Tick? {
      IsTick(s, a, t);
      TickFrame(s, a.nodes, t);
      TickHarmless(s, a.nodes, t, b, n);
    } else {
      HandleFacts(s, a, t);
      if a.Stage? {
        StageHarmless(s, a.h, a.b, b, n);
      } else {
        MoveHarmless(s, t, b, n);
      }
    }
  }

  lemma {:induction false} HarmlessSince(states: seq<Sys>, actions: seq<Action>, i: nat, j: nat, b: u64, n: nat)
    requires IsRun(states, actions) && Init(states[0]) && i <= j < |states|
    requires Harmless(states[i], b, n) && n <= |states[i].bufs|
    ensures Harmless(states[j], b, n) && n <= |states[j].bufs| && (Gone(states[i], b, n) ==> Gone(states[j], b, n))
    decreases j
  {
    hide PhysOf, Step, Inv, Init, Harmless, Gone;
    if i < j {
      var k := j - 1;
      HarmlessSince(states, actions, i, k, b, n);
      RunShape(states, actions, k);
      InvParts(states[k]);
      assert Step(states[k], actions[k], states[k + 1]);
      HarmlessStep(states[k], actions[k], states[j], b, n);
    }
  }

  // ---- where the content of a block can come from ----

  /** Step q takes a snapshot of block b in a buffer numbered n or more, with content v. */
  ghost predicate NewerCopy(states: seq<Sys>, actions: seq<Action>, n: nat, q: nat, b: u64, v: Block)
    requires |states| == |actions| + 1
  {
    Snapshot(states, actions, q)
    && exists k :: 0 <= k < |actions[q].nodes| && CopyAt(states[q], actions[q].nodes[k], n, b, v)
  }

  predicate CopyAt(s: Sys, node: Node, n: nat, b: u64, v: Block) {
    node.blockno == b && n <= node.buf < |s.bufs| && s.bufs[node.buf] == v
  }

  predicate DirectAt(actions: seq<Action>, q: nat, b: u64, v: Block) {
    q < |actions| && actions[q].WriteDirect? && actions[q].b == b && actions[q].data == v
  }

  /**
   v was written to block b in step i or later, and before state j: directly, or through a
   buffer first staged after step i.
   */
  ghost predicate NewerWrite(states: seq<Sys>, actions: seq<Action>, i: nat, j: nat, b: u64, v: Block)
    requires |states| == |actions| + 1 && i < |states|
  {
    exists q: nat :: i <= q < j && NewerAt(states, actions, |states[i].bufs|, q, b, v)
  }

  ghost predicate NewerAt(states: seq<Sys>, actions: seq<Action>, n: nat, q: nat, b: u64, v: Block)
    requires |states| == |actions| + 1
  {
    DirectAt(actions, q, b, v) || NewerCopy(states, actions, n, q, b, v)
  }

  lemma NewerGrows(states: seq<Sys>, actions: seq<Action>, i: nat, j: nat, m: nat, b: u64, v: Block)
    requires |states| == |actions| + 1 && i < |states| && j <= m && NewerWrite(states, actions, i, j, b, v)
    ensures NewerWrite(states, actions, i, m, b, v)
  {
    hide NewerAt;
  }

  lemma {:induction false} BufsGrow(states: seq<Sys>, actions: seq<Action>, i: nat, j: nat)
    requires IsRun(states, actions) && i <= j < |states|
    ensures |states[i].bufs| <= |states[j].bufs|
    decreases j
  {
    hide PhysOf, Step, Shaped;
    if i < j {
      var k := j - 1;
      BufsGrow(states, actions, i, k);
      assert Step(states[k], actions[k], states[k + 1]);
      BufsStep(states[k], actions[k], states[j]);
    }
  }

  lemma BufsStep(s: Sys, a: Action, t: Sys)
    requires Step(s, a, t)
    ensures |s.bufs| <= |t.bufs|
  {
    hide PhysOf, Step, TickStep, Shaped, StageStep;
    if a.Tick? {
      IsTick(s, a, t);
      TickFrame(s, a.nodes, t);
    } else {
      HandleFacts(s, a, t);
    }
  }

  /** A node that a snapshot took keeps the content it had then. */
  lemma TakenContent(states: seq<Sys>, actions: seq<Action>, i: nat, q: nat, j: nat, b: u64, node: Node)
    requires IsRun(states, actions) && Init(states[0]) && |states| == |actions| + 1 && i < |states|
    requires Snapshot(states, actions, q) && q < j < |states| && HasNode(actions[q].nodes, node)
    requires node.blockno == b && |states[i].bufs| <= node.buf
    ensures node.buf < |states[j].bufs| && NewerWrite(states, actions, i, j, b, states[j].bufs[node.buf])
  {
    hide PhysOf, IsRun, Init, Shaped, Flattens;
    SnapshotIs(states, actions, q);
    FlattenedBufsIn(states[q], actions[q].nodes);
    var k :| 0 <= k < |actions[q].nodes| && actions[q].nodes[k] == node;
    SnapshotFrozen(states, actions, q, j, node.buf);
    if q < i {
      BufsGrow(states, actions, q, i);
    }
    assert CopyAt(states[q], actions[q].nodes[k], |states[i].bufs|, b, states[j].bufs[node.buf]);
    assert NewerAt(states, actions, |states[i].bufs|, q, b, states[j].bufs[node.buf]);
  }

  lemma OnTheWayNode(states: seq<Sys>, actions: seq<Action>, j: nat, k: nat) returns (q: nat)
    requires IsRun(states, actions) && Init(states[0]) && |states| == |actions| + 1 && j < |states|
    requires k < |PcNodes(states[j])|
    ensures Snapshot(states, actions, q) && q < j && HasNode(actions[q].nodes, PcNodes(states[j])[k])
  {
    hide PhysOf, IsRun, Init, OnTheWay, Snapshot;
    q := OnTheWaySince(states, actions, j);
  }

  /** Every node of a transaction in the log was taken by a snapshot. */
  lemma {:induction false} LiveNode(states: seq<Sys>, actions: seq<Action>, j: nat, m: nat, k: nat) returns (q: nat)
    requires IsRun(states, actions) && Init(states[0]) && |states| == |actions| + 1 && j < |states|
    requires m < |LiveList(states[j])| && k < |LiveList(states[j])[m].nodes|
    ensures Snapshot(states, actions, q) && q < j && HasNode(actions[q].nodes, LiveList(states[j])[m].nodes[k])
    decreases j
  {
    hide PhysOf, Step, Shaped, LiveList, Snapshot, OnTheWay, HasNode, TickStep, Stable, HomeOlder;
    if j == 0 {
      NothingLiveYet(states[0]);
    } else {
      var p := j - 1;
      assert Step(states[p], actions[p], states[p + 1]);
      var n := LiveBefore(states[p], actions[p], states[j], m);
      if n < |LiveList(states[p])| {
        q := LiveNode(states, actions, p, n, k);
      } else {
        q := OnTheWayNode(states, actions, p, k);
      }
    }
  }

  lemma NothingLiveYet(s: Sys)
    requires Init(s)
    ensures LiveList(s) == []
  {
    hide PhysOf, Shaped, Stable, HomeOlder;
  }

  /** A transaction in the log was there before the step, or was on its way. */
  lemma LiveBefore(s: Sys, a: Action, t: Sys, m: nat) returns (n: nat)
    requires Step(s, a, t) && m < |LiveList(t)|
    ensures n <= |LiveList(s)|
    ensures LiveList(t)[m].nodes == if n < |LiveList(s)| then LiveList(s)[n].nodes else PcNodes(s)
  {
    hide PhysOf, Step, TickStep, Shaped, StageStep, FreezeTick;
    n := m;
    if !a.Tick? {
      HandleFacts(s, a, t);
    } else {
      IsTick(s, a, t);
      TickFrame(s, a.nodes, t);
      if s.pc.Freezing? {
        FreezeLive(s, t, a.nodes);
      } else {
        TickPasses(s, a.nodes, t);
        if LiveList(t) != LiveList(s) && LiveList(s) != [] && LiveList(t) == LiveList(s)[1..] {
          n := m + 1;
        }
      }
    }
  }

  lemma FreezeLive(s: Sys, t: Sys, nodes: seq<Node>)
    requires s.pc.Freezing? && FreezeTick(s, t, nodes)
    ensures LiveList(t) == LiveList(s)
  {
    hide Flattens;
  }

  // ---- writes to the device ----

  /** Everything written to block b on the device from position pos on is newer. */
  ghost predicate LogNewer(states: seq<Sys>, actions: seq<Action>, i: nat, j: nat, b: u64)
    requires |states| == |actions| + 1 && i < |states| && j < |states|
  {
    forall p :: |states[i].disk.log| <= p < |states[j].disk.log| ==> EntryNewer(states, actions, i, j, p, b)
  }

  ghost predicate EntryNewer(states: seq<Sys>, actions: seq<Action>, i: nat, j: nat, p: nat, b: u64)
    requires |states| == |actions| + 1 && i < |states| && j < |states| && p < |states[j].disk.log|
  {
    var op := states[j].disk.log[p];
    op.Write? && op.blockno == b ==> NewerWrite(states, actions, i, j, b, op.data)
  }

  /** What a step of the thread appends to the device's log: nothing, or one operation. */
  lemma TickAppends(s: Sys, nodes: seq<Node>, t: Sys, b: u64)
    requires Shaped(s) && TickStep(s, t, nodes) && IsHome(s.g, |s.disk.base|, b)
    ensures t.disk == s.disk || exists op :: t.disk == Do(s.disk, op) && FromLeft(s, op, b)
  {
    hide PhysOf, Shaped, TickStep, IsHome, FromLeft;
    TickFrame(s, nodes, t);
    if s.pc.Forcing? {
      ForcingTick(s, nodes, t);
      ForceAppends(s, t, b);
    } else if s.pc.Committing? {
      CommitAppends(s, nodes, t, b);
    } else if s.pc.Checkpointing? {
      CheckpointAppends(s, nodes, t, b);
    }
  }

  /** If op writes block b, it installs one of the nodes left. */
  predicate FromLeft(s: Sys, op: Op, b: u64) {
    op.Write? && op.blockno == b ==>
      && NodesLeft(s) != [] && NodesLeft(s)[0].blockno == b && NodesLeft(s)[0].buf < |s.bufs|
      && op.data == s.bufs[NodesLeft(s)[0].buf]
  }

  lemma ForceAppends(s: Sys, t: Sys, b: u64)
    requires s.pc.Forcing? && ForceTick(s, t)
    ensures t.disk == s.disk || (t.disk == Do(s.disk, Flush) && FromLeft(s, Flush, b))
  {}

  lemma CommitAppends(s: Sys, nodes: seq<Node>, t: Sys, b: u64)
    requires Shaped(s) && TickStep(s, t, nodes) && s.pc.Committing? && IsHome(s.g, |s.disk.base|, b)
    ensures t.disk == s.disk || exists op :: t.disk == Do(s.disk, op) && FromLeft(s, op, b)
  {
    hide PhysOf, Shaped, CommitScript, Published, IsHome;
    if s.pc.done < |CommitScript(s)| {
      CommitScriptAway(s);
      assert FromLeft(s, CommitScript(s)[s.pc.done], b);
    } else {
      PublishDisk(s, t);
    }
  }

  lemma CheckpointAppends(s: Sys, nodes: seq<Node>, t: Sys, b: u64)
    requires Shaped(s) && TickStep(s, t, nodes) && s.pc.Checkpointing? && IsHome(s.g, |s.disk.base|, b)
    ensures t.disk == s.disk || exists op :: t.disk == Do(s.disk, op) && FromLeft(s, op, b)
  {
    hide PhysOf, Shaped, CheckpointScript, CheckpointTick;
    CheckpointCases(s, t);
    if s.pc.done < |CheckpointScript(s)| {
      CheckpointScriptHome(s);
      ShapedTxn(s);
      assert FromLeft(s, CheckpointScript(s)[s.pc.done], b);
    }
  }

  /** The nodes left are those of the oldest transaction in the log. */
  lemma LeftLive(s: Sys)
    requires NodesLeft(s) != []
    ensures LiveList(s) != [] && s.pc.Checkpointing? && s.pc.done < |LiveList(s)[0].nodes|
    ensures NodesLeft(s)[0] == LiveList(s)[0].nodes[s.pc.done]
  {}

  lemma LeftNewer(states: seq<Sys>, actions: seq<Action>, i: nat, k: nat, b: u64, op: Op)
    requires IsRun(states, actions) && Init(states[0]) && |states| == |actions| + 1 && i < k < |states|
    requires Harmless(states[k], b, |states[i].bufs|) && FromLeft(states[k], op, b) && op.Write? && op.blockno == b
    ensures NewerWrite(states, actions, i, k, b, op.data)
  {
    hide PhysOf, IsRun, Init, LiveList, Snapshot, HasNode, Commits;
    LeftLive(states[k]);
    var q := LiveNode(states, actions, k, 0, states[k].pc.done);
    TakenContent(states, actions, i, q, k, b, NodesLeft(states[k])[0]);
  }

  lemma Appended(states: seq<Sys>, actions: seq<Action>, i: nat, k: nat, b: u64, op: Op)
    requires |states| == |actions| + 1 && i < k < |actions| && LogNewer(states, actions, i, k, b)
    requires states[k + 1].disk == Do(states[k].disk, op)
    requires op.Write? && op.blockno == b ==> NewerWrite(states, actions, i, k + 1, b, op.data)
    ensures LogNewer(states, actions, i, k + 1, b)
  {
    hide NewerWrite;
    var j := k + 1;
    forall p | |states[i].disk.log| <= p < |states[j].disk.log| ensures EntryNewer(states, actions, i, j, p, b) {
      if p < |states[k].disk.log| {
        EntryKept(states, actions, i, k, p, b);
      }
    }
  }

  lemma EntryKept(states: seq<Sys>, actions: seq<Action>, i: nat, k: nat, p: nat, b: u64)
    requires |states| == |actions| + 1 && i < k < |actions| && p < |states[k].disk.log|
    requires states[k].disk.log <= states[k + 1].disk.log && EntryNewer(states, actions, i, k, p, b)
    ensures EntryNewer(states, actions, i, k + 1, p, b)
  {
    hide NewerWrite;
    var op := states[k].disk.log[p];
    if op.Write? && op.blockno == b {
      NewerGrows(states, actions, i, k, k + 1, b, op.data);
    }
  }

  lemma Unappended(states: seq<Sys>, actions: seq<Action>, i: nat, k: nat, b: u64)
    requires |states| == |actions| + 1 && i < k < |actions| && LogNewer(states, actions, i, k, b)
    requires states[k + 1].disk == states[k].disk
    ensures LogNewer(states, actions, i, k + 1, b)
  {
    hide NewerWrite, EntryNewer;
    var j := k + 1;
    forall p | |states[i].disk.log| <= p < |states[j].disk.log| ensures EntryNewer(states, actions, i, j, p, b) {
      EntryKept(states, actions, i, k, p, b);
    }
  }

  lemma FirstEntry(states: seq<Sys>, actions: seq<Action>, i: nat, b: u64, data: Block)
    requires |states| == |actions| + 1 && i < |actions| && DirectAt(actions, i, b, data)
    requires states[i + 1].disk == Do(states[i].disk, Write(b, data))
    ensures LogNewer(states, actions, i, i + 1, b)
  {
    hide NewerCopy;
    assert NewerAt(states, actions, |states[i].bufs|, i, b, data);
  }

  lemma DirectNewer(states: seq<Sys>, actions: seq<Action>, i: nat, k: nat, b: u64, v: Block)
    requires |states| == |actions| + 1 && i <= k < |actions| && DirectAt(actions, k, b, v)
    ensures NewerWrite(states, actions, i, k + 1, b, v)
  {
    hide NewerCopy;
    assert NewerAt(states, actions, |states[i].bufs|, k, b, v);
  }

  lemma {:induction false} LogNewerSince(states: seq<Sys>, actions: seq<Action>, i: nat, j: nat)
    requires IsRun(states, actions) && Init(states[0]) && |states| == |actions| + 1 && i < j < |states|
    requires actions[i].WriteDirect? && Harmless(states[i], actions[i].b, |states[i].bufs|)
    ensures LogNewer(states, actions, i, j, actions[i].b)
    decreases j
  {
    hide PhysOf, IsRun, Init, Inv, Shaped, Harmless, LogNewer, NewerWrite, IsHome, FromLeft;
    var b, k := actions[i].b, j - 1;
    StepAt(states, actions, k);
    StepAt(states, actions, i);
    HandleFacts(states[i], actions[i], states[i + 1]);
    if k == i {
      FirstEntry(states, actions, i, b, actions[i].data);
    } else {
      LogNewerSince(states, actions, i, k);
      RunShape(states, actions, k);
      RunShape(states, actions, i);
      if actions[k].Tick? {
        IsTick(states[k], actions[k], states[j]);
        TickAppends(states[k], actions[k].nodes, states[j], b);
        if states[j].disk == states[k].disk {
          Unappended(states, actions, i, k, b);
        } else {
          var op :| states[j].disk == Do(states[k].disk, op) && FromLeft(states[k], op, b);
          HarmlessSince(states, actions, i, k, b, |states[i].bufs|);
          if op.Write? && op.blockno == b {
            LeftNewer(states, actions, i, k, b, op);
            NewerGrows(states, actions, i, k, j, b, op.data);
          }
          Appended(states, actions, i, k, b, op);
        }
      } else {
        HandleFacts(states[k], actions[k], states[j]);
        if actions[k].WriteDirect? {
          var op := Write(actions[k].b, actions[k].data);
          if actions[k].b == b {
            DirectNewer(states, actions, i, k, b, actions[k].data);
          }
          Appended(states, actions, i, k, b, op);
        } else {
          Unappended(states, actions, i, k, b);
        }
      }
    }
  }

  lemma StepAt(states: seq<Sys>, actions: seq<Action>, k: nat)
    requires IsRun(states, actions) && k < |actions|
    ensures |states| == |actions| + 1 && Step(states[k], actions[k], states[k + 1])
  {
    hide Step;
  }

  // ---- what a crash shows ----

  /** A copy of b among the recovered transactions is newer. */
  lemma {:induction false} NewestIsNewer(states: seq<Sys>, actions: seq<Action>, i: nat, j: nat, list: seq<Committed>,
                                        b: u64)
    requires IsRun(states, actions) && Init(states[0]) && |states| == |actions| + 1 && i < |states| && j < |states|
    requires AllBufsIn(list, |states[j].bufs|) && ListNoOld(list, b, |states[i].bufs|)
    requires forall m :: 0 <= m < |list| ==> NodesTaken(states, actions, j, list[m].nodes)
    ensures var found := FindCheckpointed(states[j].bufs, list, b);
            found.Some? ==> NewerWrite(states, actions, i, j, b, found.value)
    decreases |list|
  {
    hide PhysOf, IsRun, Init, NewerWrite, WasTaken;
    if list != [] {
      var nodes := list[|list| - 1].nodes;
      var copies := CopiesOf(states[j].bufs, nodes);
      if LastCopy(copies, b).Some? {
        var k := LastNode(states[j].bufs, nodes, b);
        LastCopyIndex(copies, b);
        assert copies[k].target == b;
        assert NodesTaken(states, actions, j, list[|list| - 1].nodes);
        TakenIsNewer(states, actions, i, j, b, nodes[k]);
      } else {
        NewestIsNewer(states, actions, i, j, list[..|list| - 1], b);
      }
    }
  }

  /** The node was in a snapshot before state j. */
  ghost predicate WasTaken(states: seq<Sys>, actions: seq<Action>, j: nat, node: Node)
    requires |states| == |actions| + 1
  {
    exists q: nat :: q < j && Snapshot(states, actions, q) && HasNode(actions[q].nodes, node)
  }

  ghost predicate NodesTaken(states: seq<Sys>, actions: seq<Action>, j: nat, nodes: seq<Node>)
    requires |states| == |actions| + 1
  {
    forall k :: 0 <= k < |nodes| ==> WasTaken(states, actions, j, nodes[k])
  }

  lemma TakenIsNewer(states: seq<Sys>, actions: seq<Action>, i: nat, j: nat, b: u64, node: Node)
    requires IsRun(states, actions) && Init(states[0]) && |states| == |actions| + 1 && i < |states| && j < |states|
    requires WasTaken(states, actions, j, node) && node.blockno == b && |states[i].bufs| <= node.buf
    ensures node.buf < |states[j].bufs| && NewerWrite(states, actions, i, j, b, states[j].bufs[node.buf])
  {
    hide PhysOf, IsRun, Init, NewerWrite, HasNode;
    var q: nat :| q < j && Snapshot(states, actions, q) && HasNode(actions[q].nodes, node);
    TakenContent(states, actions, i, q, j, b, node);
  }

  /** The transactions a crash can recover: those in the log, without the oldest or with the one being committed. */
  ghost predicate CanRecover(s: Sys, list: seq<Committed>) {
    || list == LiveList(s)
    || (s.pc.Committing? && s.next < U64 && list == LiveList(s) + [Publishing(s)])
    || (s.pc.Checkpointing? && LiveList(s) != [] && list == LiveList(s)[1..])
  }

  lemma CrashList(s: Sys, img: Image) returns (list: seq<Committed>)
    requires JournalInv(s) && CrashImage(s.disk, img)
    ensures Fits(s.g, |img|) && CanRecover(s, list) && AllBufsIn(list, |s.bufs|)
    ensures RecoveredTxns(img, s.g) == TxnsOf(s.bufs, list)
  {
    hide PhysOf, JournalInv, RecoveredTxns, CrashImage, Fresh, Shaped, LiveList, CommitScript, RecoveredHead;
    hide LiveBufsIn;
    JournalParts(s);
    ImageSize(s.disk, img);
    LiveListIn(s);
    list := LiveList(s);
    if s.pc.Committing? {
      CommittingCrash(s, img);
      if LiveAndCommitting(s, img) {
        ShapedPc(s);
        TxnsOfSnoc(s.bufs, LiveList(s), Publishing(s));
        list := LiveList(s) + [Publishing(s)];
      }
    } else if s.pc.Checkpointing? {
      CheckpointingCrash(s, img);
      if !OnlyLive(s, img) {
        LiveIsLonger(s);
        assert LiveTxns(s)[1..] == TxnsOf(s.bufs, LiveList(s)[1..]);
        list := LiveList(s)[1..];
      }
    } else {
      StillCrash(s, img);
    }
  }

  lemma LiveIsLonger(s: Sys)
    requires s.pc.Checkpointing?
    ensures LiveList(s) != []
  {}

  lemma AllTaken(states: seq<Sys>, actions: seq<Action>, j: nat, list: seq<Committed>)
    requires IsRun(states, actions) && Init(states[0]) && |states| == |actions| + 1 && j < |states|
    requires CanRecover(states[j], list)
    ensures forall m :: 0 <= m < |list| ==> NodesTaken(states, actions, j, list[m].nodes)
  {
    hide PhysOf, IsRun, Init, LiveList, HasNode, OnTheWay;
    var s := states[j];
    forall m, k | 0 <= m < |list| && 0 <= k < |list[m].nodes| ensures WasTaken(states, actions, j, list[m].nodes[k]) {
      var first := if s.pc.Checkpointing? && LiveList(s) != [] && list == LiveList(s)[1..] then 1 else 0;
      if m + first < |LiveList(s)| {
        var q := LiveNode(states, actions, j, m + first, k);
      } else {
        CommittingNodes(s);
        var q := OnTheWayNode(states, actions, j, k);
      }
    }
  }

  lemma CommittingNodes(s: Sys)
    ensures s.pc.Committing? ==> PcNodes(s) == s.pc.nodes
  {}

  lemma RecoverableNoOld(s: Sys, list: seq<Committed>, b: u64, n: nat)
    requires JournalInv(s) && CanRecover(s, list) && Harmless(s, b, n) && Gone(s, b, n)
    ensures ListNoOld(list, b, n)
  {
    hide PhysOf, JournalInv, Commits;
    if s.pc.Committing? {
      CommittingFits(s);
      CommittingNodes(s);
    }
    forall m | 0 <= m < |list| ensures NoOld(list[m].nodes, b, n) {
    }
  }

  /** The write of step i has been forced, and no older copy of its block can come home. */
  lemma ShowsNewer(states: seq<Sys>, actions: seq<Action>, i: nat, j: nat, img: Image)
    requires IsRun(states, actions) && Init(states[0]) && |states| == |actions| + 1 && i < j < |states|
    requires actions[i].WriteDirect? && Harmless(states[i], actions[i].b, |states[i].bufs|)
    requires Gone(states[j], actions[i].b, |states[i].bufs|) && Flushed(states[j].disk, |states[i].disk.log|)
    requires CrashImage(states[j].disk, img)
    ensures Fits(states[j].g, |img|) && actions[i].b < |img|
    ensures NewerWrite(states, actions, i, j, actions[i].b, RecoveredBlock(img, states[j].g, actions[i].b))
  {
    hide PhysOf, IsRun, Init, Inv, Shaped, Harmless, Gone, NewerWrite, CrashImage, RecoveredTxns, Replayed, Flushed;
    hide CanRecover, WasTaken, EntryNewer, JournalInv, May, RecoveredBlock;
    var b, s, n := actions[i].b, states[j], |states[i].bufs|;
    RunShape(states, actions, j);
    RunShape(states, actions, i);
    InvParts(s);
    var list := CrashList(s, img);
    HarmlessSince(states, actions, i, j, b, n);
    RecoverableNoOld(s, list, b, n);
    AllTaken(states, actions, j, list);
    NewestIsNewer(states, actions, i, j, list, b);
    FindIsNewest(s.bufs, list, b);
    ImageSize(s.disk, img);
    StepAt(states, actions, i);
    HandleFacts(states[i], actions[i], states[i + 1]);
    HomeBlock(states[i].g, |states[i].disk.base|, b);
    RecoveredIs(img, s.g, b, TxnsOf(s.bufs, list));
    if FindCheckpointed(s.bufs, list, b).None? {
      RunExtends(states, actions, i + 1, j);
      ExtendsAt(states[i + 1].disk, s.disk, |states[i].disk.log|);
      ImageMay(s.disk, img, b);
      FlushedIsFloor(s.disk, |states[i].disk.log|, img[b]);
      LogNewerSince(states, actions, i, j);
      var p :| |states[i].disk.log| <= p < |s.disk.log| && s.disk.log[p] == Write(b, img[b]);
      UseEntry(states, actions, i, j, p, b);
    }
  }

  lemma UseEntry(states: seq<Sys>, actions: seq<Action>, i: nat, j: nat, p: nat, b: u64)
    requires |states| == |actions| + 1 && i < |states| && j < |states| && LogNewer(states, actions, i, j, b)
    requires |states[i].disk.log| <= p < |states[j].disk.log|
    requires states[j].disk.log[p].Write? && states[j].disk.log[p].blockno == b
    ensures NewerWrite(states, actions, i, j, b, states[j].disk.log[p].data)
  {
    hide NewerWrite;
    assert EntryNewer(states, actions, i, j, p, b);
  }

  /**
   Ordered mode over whole runs. Block b is written directly at step i, with no older copy of
   it still on a way home, and step k takes the snapshot of that generation. From the moment m
   at which the thread has gone on to commit the generation, whatever happens later, every
   crash shows that write in b, a later direct one, or one of a buffer first staged after it.
   */
  lemma RunOrdered(states: seq<Sys>, actions: seq<Action>, i: nat, k: nat, m: nat, j: nat, img: Image)
    requires IsRun(states, actions) && Init(states[0]) && |states| == |actions| + 1 && Snapshot(states, actions, k)
    requires i < k < m <= j < |states| && actions[i].WriteDirect? && states[i].gen == states[k].gen
    requires Harmless(states[i], actions[i].b, |states[i].bufs|)
    requires !states[m].pc.Forcing? && CrashImage(states[j].disk, img)
    ensures Fits(states[j].g, |img|) && actions[i].b < |img|
    ensures NewerWrite(states, actions, i, j, actions[i].b, RecoveredBlock(img, states[j].g, actions[i].b))
  {
    hide PhysOf, IsRun, Init, Harmless, NewerWrite, CrashImage, RecoveredBlock, Flushed, Extends;
    var pos, b, n := |states[i].disk.log|, actions[i].b, |states[i].bufs|;
    SnapshotHasDirect(states, actions, i, k);
    ForcedSince(states, actions, k + 1, m, pos);
    RunExtends(states, actions, m, j);
    FlushedLater(states[m].disk, states[j].disk, pos);
    HarmlessSince(states, actions, i, k, b, n);
    HarmlessSince(states, actions, k, j, b, n);
    ShowsNewer(states, actions, i, j, img);
  }
}
