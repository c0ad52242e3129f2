/** What every step of the pipeline keeps, handles, staging, content and ordered data included. */
module PipelineInv {
  import opened Bytes
  import opened DiskFormat
  import opened Device
  import opened LogFormat
  import opened Replay
  import opened CrashSafety
  import opened Checkpoint
  import opened Pipeline
  import opened PipelineJournal

  ghost predicate HandleOk(s: Sys, h: nat)
    requires h in s.handles
  {
    h in s.born && s.born[h] == s.handles[h].gen == s.gen && s.handles[h].bufs <= s.staged.Values
  }

  /** Live handles belong to the running generation and hold buffers of its staging table only. */
  ghost predicate HandlesOk(s: Sys) {
    && (s.freezing <==> s.pc.Freezing?)
    && (forall h :: h in s.handles ==> HandleOk(s, h))
    && (forall h :: h in s.born ==> s.born[h] <= s.gen)
  }

  /** One buffer per staged block, and none that a commit has taken. */
  ghost predicate StagingOk(s: Sys) {
    && (forall b, c :: b in s.staged && c in s.staged && b != c ==> s.staged[b] != s.staged[c])
    && (forall b :: b in s.staged ==> IsHome(s.g, |s.disk.base|, b) && s.staged[b] < |s.bufs| && !Taken(s, s.staged[b]))
  }

  ghost predicate NodesHome(s: Sys) {
    forall i :: 0 <= i < |PcNodes(s)| ==> IsHome(s.g, |s.disk.base|, PcNodes(s)[i].blockno)
  }

  predicate NodeIn(nodes: seq<Node>, buf: nat) {
    exists i :: 0 <= i < |nodes| && nodes[i].buf == buf
  }

  /** The generation on its way shares no buffer with a transaction in the log. */
  ghost predicate Unshared(s: Sys) {
    forall i, buf :: 0 <= i < |LiveList(s)| && NodeIn(LiveList(s)[i].nodes, buf) ==> !NodeIn(PcNodes(s), buf)
  }

  ghost predicate BufsOlder(bufs: seq<Block>, n: nat) {
    forall i :: 0 <= i < |bufs| ==> Older(bufs[i], n)
  }

  ghost predicate HomeOlder(d: Disk, g: Geometry, n: nat) {
    forall b: nat :: IsHome(g, |d.base|, b) ==> BlockOlder(d, b, n)
  }

  // ---- data written directly ----

  /** The log positions xs are writes to home blocks. */
  ghost predicate DirectIn(d: Disk, g: Geometry, xs: seq<nat>) {
    forall i :: 0 <= i < |xs| ==>
      xs[i] < |d.log| && d.log[xs[i]].Write? && IsHome(g, |d.base|, d.log[xs[i]].blockno)
  }

  ghost predicate DirectFlushed(d: Disk, xs: seq<nat>) {
    forall i :: 0 <= i < |xs| ==> Flushed(d, xs[i])
  }

  /** The data writes of the generation on its way to the journal. */
  function PcDirect(s: Sys): seq<nat> {
    DirectOnTheWay(s.pc)
  }

  function DirectOnTheWay(pc: Pc): seq<nat> {
    match pc
    case Forcing(_, direct) => direct
    case Reclaiming(_, direct) => direct
    case Committing(_, direct, _) => direct
    case Checkpointing(_, _, resume) => if resume.ToReclaim? then resume.direct else []
    case _ => []
  }

  ghost predicate ListDirect(d: Disk, g: Geometry, list: seq<Committed>) {
    forall i :: 0 <= i < |list| ==> DirectIn(d, g, list[i].direct) && DirectFlushed(d, list[i].direct)
  }

  /** Data of a generation is durable before its transaction can be. */
  ghost predicate DirectOk(s: Sys) {
    && DirectIn(s.disk, s.g, s.direct)
    && DirectIn(s.disk, s.g, PcDirect(s))
    && (s.direct != [] || PcDirect(s) != [] ==> s.ordered)
    && (!s.pc.Forcing? ==> DirectFlushed(s.disk, PcDirect(s)))
    && ListDirect(s.disk, s.g, LiveList(s))
  }

  ghost predicate Inv(s: Sys) {
    && JournalInv(s)
    && HandlesOk(s)
    && StagingOk(s)
    && NodesHome(s)
    && BufsOlder(s.bufs, s.next)
    && HomeOlder(s.disk, s.g, s.next)
    && DirectOk(s)
    && Unshared(s)
  }

  /** A session begins with an empty log and nothing staged. */
  ghost predicate Init(s: Sys) {
    && Shaped(s)
    && s.pc == Waiting && s.ckpt == [] && s.staged == map[] && s.handles == map[] && s.born == map[]
    && !s.freezing && s.running == s.next && s.completed == 0 && s.syncs == map[] && s.direct == [] && s.bufs == []
    && s.head == s.tail
    && s.next < U64
    && Stable(s.disk, Log(s.g, s.tail, s.next, []))
    && HomeOlder(s.disk, s.g, s.next)
  }

  lemma InitInv(s: Sys)
    requires Init(s)
    ensures Inv(s)
  {
    hide PhysOf, Stable, View, May, Older;
    assert LiveTxns(s) == [];
    assert EncodeLog([]) == [];
    StableWellFormed(s.disk, LogOf(s));
  }

  lemma StableWellFormed(d: Disk, l: Log)
    requires Stable(d, l)
    ensures WellFormed(l, |d.base|)
  {}

  // ---- what a step of the commit thread touches ----

  /** What no step of the commit thread changes. */
  ghost predicate Untouched(s: Sys, t: Sys) {
    && t.g == s.g && t.ordered == s.ordered && t.bufs == s.bufs
    && t.handles == s.handles && t.born == s.born && t.shutdown == s.shutdown && t.syncs == s.syncs
    && t.disk.base == s.disk.base && s.disk.log <= t.disk.log
  }

  /** The thread moves, the journal does not. */
  ghost predicate JournalUntouched(s: Sys, t: Sys) {
    t.disk == s.disk && t.next == s.next && t.head == s.head && t.tail == s.tail
  }

  ghost predicate StagingUntouched(s: Sys, t: Sys) {
    t.staged == s.staged && t.gen == s.gen && t.direct == s.direct && t.freezing == s.freezing
  }

  lemma WaitFrame(s: Sys, t: Sys)
    requires WaitTick(s, t)
    ensures Untouched(s, t) && JournalUntouched(s, t) && !t.pc.Forcing?
    ensures t.staged == s.staged && t.gen == s.gen && t.direct == s.direct
            && t.freezing == (s.freezing || t.pc.Freezing?)
  {}

  lemma PublishFrame(s: Sys, t: Sys)
    requires s.pc.Committing? && s.next < U64 && t == Published(s)
    ensures Untouched(s, t) && StagingUntouched(s, t) && t.pc == Lagging
  {}

  lemma PopFrame(s: Sys, t: Sys, resume: Resume)
    requires s.ckpt != [] && t == PopOldest(s, resume)
    ensures Untouched(s, t) && StagingUntouched(s, t) && JournalUntouched(s, t)
            && t.pc == Checkpointing(s.ckpt[0], 0, resume)
  {}

  /** A step that moves nothing but the thread. */
  lemma PcFrame(s: Sys, t: Sys)
    requires t == s.(pc := t.pc, completed := t.completed, running := t.running)
    ensures Untouched(s, t) && StagingUntouched(s, t) && JournalUntouched(s, t)
  {}

  /** A step that issues one device operation. */
  lemma OpFrame(s: Sys, t: Sys, op: Op)
    requires t == s.(pc := t.pc, disk := Do(s.disk, op))
    ensures Untouched(s, t) && StagingUntouched(s, t)
  {}

  lemma EndFrame(s: Sys, t: Sys)
    requires t == s.(pc := t.pc, tail := t.tail)
    ensures Untouched(s, t) && StagingUntouched(s, t)
  {}

  /** The three ways out of the reclaim loop's test. */
  lemma ReclaimCases(s: Sys, t: Sys)
    requires s.pc.Reclaiming? && ReclaimTick(s, t)
    ensures || (s.ckpt != [] && t == PopOldest(s, ToReclaim(s.pc.nodes, s.pc.direct)))
            || t == GivenUp(s)
            || (GoesAhead(s) && t == s.(pc := Committing(s.pc.nodes, s.pc.direct, 0)))
  {
    hide PopOldest, GivenUp, FreeSpace, SpaceNeeded;
  }

  /** What a commit that starts has checked, and that the counters have not run out. */
  predicate GoesAhead(s: Sys)
    requires s.pc.Reclaiming?
  {
    && 0 < SpaceNeeded(|s.pc.nodes|, 0) <= FreeSpace(s.g.maxlen, s.head, s.tail)
    && s.next + 1 < U64 && s.head + SpaceNeeded(|s.pc.nodes|, 0) < EMPTY
  }

  lemma ReclaimFrame(s: Sys, t: Sys)
    requires s.pc.Reclaiming? && ReclaimTick(s, t)
    ensures Untouched(s, t) && StagingUntouched(s, t) && JournalUntouched(s, t) && !t.pc.Forcing? && !t.pc.Freezing?
  {
    hide PopOldest, ReclaimTick, Untouched, StagingUntouched, JournalUntouched;
    ReclaimCases(s, t);
    if s.ckpt != [] && t == PopOldest(s, ToReclaim(s.pc.nodes, s.pc.direct)) {
      PopFrame(s, t, ToReclaim(s.pc.nodes, s.pc.direct));
    } else {
      PcFrame(s, t);
    }
  }

  lemma LagFrame(s: Sys, t: Sys)
    requires LagTick(s, t)
    ensures Untouched(s, t) && StagingUntouched(s, t) && JournalUntouched(s, t) && !t.pc.Forcing? && !t.pc.Freezing?
  {
    hide PopOldest;
    if |s.ckpt| > CKPT_LAG {
      PopFrame(s, t, ToLag);
    }
  }

  lemma DrainFrame(s: Sys, t: Sys)
    requires DrainTick(s, t)
    ensures Untouched(s, t) && StagingUntouched(s, t) && JournalUntouched(s, t) && !t.pc.Forcing? && !t.pc.Freezing?
  {
    hide PopOldest;
    if s.ckpt != [] {
      PopFrame(s, t, ToDrain);
    }
  }

  lemma CommitFrame(s: Sys, t: Sys)
    requires Shaped(s) && s.pc.Committing? && CommitTick(s, t)
    ensures Untouched(s, t) && StagingUntouched(s, t) && !t.pc.Forcing? && !t.pc.Freezing?
  {
    hide PhysOf, CommitScript, Shaped, Published, Untouched, StagingUntouched;
    if s.pc.done < |CommitScript(s)| {
      OpFrame(s, t, CommitScript(s)[s.pc.done]);
    } else {
      PublishFrame(s, t);
    }
  }

  /** One operation of the checkpoint, or its end. */
  lemma CheckpointCases(s: Sys, t: Sys)
    requires Shaped(s) && s.pc.Checkpointing? && CheckpointTick(s, t)
    ensures if s.pc.done < |CheckpointScript(s)| then
              t == s.(disk := Do(s.disk, CheckpointScript(s)[s.pc.done]),
                      pc := Checkpointing(s.pc.txn, s.pc.done + 1, s.pc.resume))
            else t == s.(tail := t.tail, pc := Resumed(s.pc.resume))
  {
    hide PhysOf, CheckpointScript, Shaped, NewTail, Resumed;
  }

  lemma CheckpointFrame(s: Sys, t: Sys)
    requires Shaped(s) && s.pc.Checkpointing? && CheckpointTick(s, t)
    ensures Untouched(s, t) && StagingUntouched(s, t) && !t.pc.Forcing? && !t.pc.Freezing?
  {
    hide PhysOf, CheckpointScript, CheckpointTick, Shaped, Resumed, Untouched, StagingUntouched;
    CheckpointCases(s, t);
    if s.pc.done < |CheckpointScript(s)| {
      OpFrame(s, t, CheckpointScript(s)[s.pc.done]);
    } else {
      ResumedPc(s.pc.resume);
      EndFrame(s, t);
    }
  }

  lemma ResumedPc(r: Resume)
    ensures var pc := Resumed(r); pc.Reclaiming? || pc.Lagging? || pc.Draining?
  {}

  lemma TickFrame(s: Sys, nodes: seq<Node>, t: Sys)
    requires Shaped(s) && TickStep(s, t, nodes)
    ensures Untouched(s, t)
    ensures s.pc.Freezing? ==> FreezeTick(s, t, nodes)
    ensures !s.pc.Freezing? ==> t.staged == s.staged && t.gen == s.gen && t.direct == s.direct && !t.pc.Forcing?
    ensures !s.pc.Freezing? ==> t.freezing == (s.freezing || t.pc.Freezing?)
    ensures s.pc.Forcing? || s.pc.Committing? || s.pc.Checkpointing? || JournalUntouched(s, t)
  {
    hide PhysOf, Shaped, WaitTick, ReclaimTick, CommitTick, CheckpointTick, LagTick, DrainTick, Flattens;
    match s.pc
    case Waiting => WaitFrame(s, t);
    case Reclaiming(_, _) => ReclaimFrame(s, t);
    case Lagging => LagFrame(s, t);
    case Draining => DrainFrame(s, t);
    case Committing(_, _, _) => CommitFrame(s, t);
    case Checkpointing(_, _, _) => CheckpointFrame(s, t);
    case _ =>
  }

  // ---- handles ----

  lemma HandlesTick(s: Sys, nodes: seq<Node>, t: Sys)
    requires HandlesOk(s) && Shaped(s) && TickStep(s, t, nodes)
    ensures HandlesOk(t)
  {
    hide PhysOf, Shaped, TickStep;
    TickFrame(s, nodes, t);
    forall h | h in t.handles ensures HandleOk(t, h) {
      assert HandleOk(s, h);
    }
  }

  lemma HandlesStep(s: Sys, a: Action, t: Sys)
    requires HandlesOk(s) && Step(s, a, t)
    ensures HandlesOk(t)
  {
    hide PhysOf, View, Seed, Older, TickStep, Shaped, StageStep;
    if a.Tick? {
      HandlesTick(s, a.nodes, t);
    } else {
      if a.Stage? {
        StagedValues(s, a.h, a.b);
      }
      forall h | h in t.handles ensures HandleOk(t, h) {
        assert h in s.handles ==> HandleOk(s, h);
      }
    }
  }

  lemma StagedValues(s: Sys, h: nat, b: u64)
    requires Shaped(s) && h in s.handles && b < |s.disk.base|
    ensures var t := StageStep(s, h, b);
            s.staged.Values <= t.staged.Values && b in t.staged && t.staged[b] in t.handles[h].bufs
            && t == s.(bufs := t.bufs, staged := t.staged, handles := t.handles)
            && t.handles == s.handles[h := Handle(s.handles[h].gen, s.handles[h].bufs + {t.staged[b]})]
  {
    hide Seed, PhysOf;
    var t := StageStep(s, h, b);
    forall v | v in s.staged.Values ensures v in t.staged.Values {
      var c :| c in s.staged && s.staged[c] == v;
      assert t.staged[c] == v;
    }
  }

  // ---- shape ----

  lemma ShapedPop(s: Sys, t: Sys, resume: Resume)
    requires Shaped(s) && s.ckpt != [] && t == PopOldest(s, resume)
    requires resume.ToReclaim? ==> BufsIn(resume.nodes, |s.bufs|)
    ensures Shaped(t)
  {
    hide PhysOf, BufsIn;
  }

  lemma ShapedPublish(s: Sys, t: Sys)
    requires Shaped(s) && s.pc.Committing? && s.next < U64 && t == Published(s)
    ensures Shaped(t)
  {
    hide PhysOf, BufsIn;
  }

  /** Steps that only move the thread, the disk or the tail. */
  lemma ShapedMove(s: Sys, t: Sys)
    requires Shaped(s) && t == s.(pc := t.pc, disk := t.disk, tail := t.tail, freezing := t.freezing,
                    completed := t.completed, running := t.running)
    requires t.disk.base == s.disk.base
    requires !t.pc.Forcing?
    requires t.pc.Reclaiming? || t.pc.Committing? ==> BufsIn(t.pc.nodes, |s.bufs|)
    requires t.pc.Checkpointing? ==> s.pc.Checkpointing? && t.pc.txn == s.pc.txn && t.pc.resume == s.pc.resume
    ensures Shaped(t)
  {
    hide PhysOf, BufsIn;
  }

  lemma ShapedFreeze(s: Sys, nodes: seq<Node>, t: Sys)
    requires Shaped(s) && FreezeTick(s, t, nodes)
    ensures Shaped(t)
  {
    hide PhysOf, BufsIn, Flattens;
    FlattenedBufsIn(s, nodes);
  }

  lemma ShapedCommit(s: Sys, t: Sys)
    requires Shaped(s) && s.pc.Committing? && CommitTick(s, t)
    ensures Shaped(t)
  {
    hide PhysOf, CommitScript, Shaped, Published, BufsIn;
    ShapedPc(s);
    if s.pc.done < |CommitScript(s)| {
      ShapedMove(s, t);
    } else {
      ShapedPublish(s, t);
    }
  }

  lemma ShapedCheckpoint(s: Sys, t: Sys)
    requires Shaped(s) && s.pc.Checkpointing? && CheckpointTick(s, t)
    ensures Shaped(t)
  {
    hide PhysOf, CheckpointScript, CheckpointTick, Shaped, BufsIn;
    CheckpointCases(s, t);
    ShapedResume(s);
    ShapedMove(s, t);
  }

  lemma ShapedResume(s: Sys)
    requires Shaped(s)
    ensures s.pc.Checkpointing? && s.pc.resume.ToReclaim? ==> BufsIn(s.pc.resume.nodes, |s.bufs|)
  {
    hide PhysOf, BufsIn;
  }

  lemma ShapedReclaim(s: Sys, t: Sys)
    requires Shaped(s) && s.pc.Reclaiming? && ReclaimTick(s, t)
    ensures Shaped(t)
  {
    hide PhysOf, Shaped, PopOldest, ReclaimTick, BufsIn;
    ShapedPc(s);
    ReclaimCases(s, t);
    if s.ckpt != [] && t == PopOldest(s, ToReclaim(s.pc.nodes, s.pc.direct)) {
      ShapedPop(s, t, ToReclaim(s.pc.nodes, s.pc.direct));
    } else {
      ShapedMove(s, t);
    }
  }

  lemma ShapedLag(s: Sys, t: Sys)
    requires Shaped(s) && LagTick(s, t)
    ensures Shaped(t)
  {
    hide PhysOf, Shaped, PopOldest;
    if |s.ckpt| > CKPT_LAG {
      ShapedPop(s, t, ToLag);
    } else {
      ShapedMove(s, t);
    }
  }

  lemma ShapedDrain(s: Sys, t: Sys)
    requires Shaped(s) && DrainTick(s, t)
    ensures Shaped(t)
  {
    hide PhysOf, Shaped, PopOldest;
    if s.ckpt != [] {
      ShapedPop(s, t, ToDrain);
    } else {
      ShapedMove(s, t);
    }
  }

  lemma ShapedForce(s: Sys, t: Sys)
    requires Shaped(s) && s.pc.Forcing? && ForceTick(s, t)
    ensures Shaped(t)
  {
    hide PhysOf, Shaped, BufsIn;
    ShapedPc(s);
    ShapedMove(s, t);
  }

  lemma ShapedWait(s: Sys, t: Sys)
    requires Shaped(s) && WaitTick(s, t)
    ensures Shaped(t)
  {
    hide PhysOf, Shaped;
    ShapedMove(s, t);
  }

  lemma ShapedTick(s: Sys, nodes: seq<Node>, t: Sys)
    requires Shaped(s) && TickStep(s, t, nodes)
    ensures Shaped(t)
  {
    hide PhysOf, Shaped, WaitTick, FreezeTick, ForceTick, ReclaimTick, CommitTick, CheckpointTick, LagTick, DrainTick;
    match s.pc
    case Waiting => ShapedWait(s, t);
    case Freezing => ShapedFreeze(s, nodes, t);
    case Forcing(_, _) => ShapedForce(s, t);
    case Reclaiming(_, _) => ShapedReclaim(s, t);
    case Committing(_, _, _) => ShapedCommit(s, t);
    case Checkpointing(_, _, _) => ShapedCheckpoint(s, t);
    case Lagging => ShapedLag(s, t);
    case Draining => ShapedDrain(s, t);
    case Stopped =>
  }

  lemma FlattenedBufsIn(s: Sys, nodes: seq<Node>)
    requires Shaped(s) && Flattens(nodes, s.staged)
    ensures BufsIn(nodes, |s.bufs|)
  {
    hide PhysOf;
  }

  lemma ShapedStage(s: Sys, h: nat, b: u64)
    requires Shaped(s) && h in s.handles && b < |s.disk.base|
    ensures Shaped(StageStep(s, h, b))
  {
    hide PhysOf, Seed;
  }

  lemma ShapedFill(s: Sys, buf: nat, data: Block)
    requires Shaped(s) && buf < |s.bufs|
    ensures Shaped(s.(bufs := s.bufs[buf := data]))
  {
    hide PhysOf;
  }

  lemma ShapedStep(s: Sys, a: Action, t: Sys)
    requires Step(s, a, t)
    ensures Shaped(t) && t.g == s.g && |t.disk.base| == |s.disk.base| && t.ordered == s.ordered
  {
    hide PhysOf, View, Seed, Older, TickStep, BufsIn;
    match a
    case Tick(nodes) =>
      ShapedTick(s, nodes, t);
      TickFrame(s, nodes, t);
    case Stage(h, b) => ShapedStage(s, h, b);
    case Fill(_, buf, data) => ShapedFill(s, buf, data);
    case _ =>
  }

  // ---- the journal ----

  /** Buffers a handle can still write have not been taken. */
  lemma StagedNotTaken(s: Sys, h: nat, buf: nat)
    requires HandlesOk(s) && StagingOk(s) && h in s.handles && buf in s.handles[h].bufs
    ensures !Taken(s, buf) && buf in s.staged.Values
  {
    hide Taken, PhysOf;
    assert HandleOk(s, h);
    var b :| b in s.staged && s.staged[b] == buf;
  }

  /** What an action of a handle, a sync or a shutdown leaves alone, and what it does to buffers and disk. */
  lemma HandleFacts(s: Sys, a: Action, t: Sys)
    requires Step(s, a, t) && !a.Tick?
    ensures Shaped(s) && t.g == s.g && t.head == s.head && t.tail == s.tail && t.next == s.next
            && t.ordered == s.ordered
    ensures t.pc == s.pc && t.ckpt == s.ckpt && t.gen == s.gen && t.freezing == s.freezing
    ensures a.Fill? ==>
      a.h in s.handles && a.buf in s.handles[a.h].bufs && a.buf < |s.bufs| && t.bufs == s.bufs[a.buf := a.data]
    ensures !a.Fill? ==> s.bufs <= t.bufs
    ensures if a.Stage? then a.h in s.handles && a.b < |s.disk.base| && t == StageStep(s, a.h, a.b)
            else t.staged == s.staged
    ensures if a.WriteDirect? then IsHome(s.g, |s.disk.base|, a.b) && t.disk == Do(s.disk, Write(a.b, a.data))
            else t.disk == s.disk
  {
    hide PhysOf, Shaped, View, Seed, Older, IsHome;
    if a.Stage? {
      HomeBlock(s.g, |s.disk.base|, a.b);
    }
  }

  lemma HandleSameTaken(s: Sys, a: Action, t: Sys)
    requires HandlesOk(s) && StagingOk(s) && Step(s, a, t) && !a.Tick?
    ensures SameTaken(s, t) && t.pc == s.pc && t.ckpt == s.ckpt
  {
    hide PhysOf, Step, Taken, IsHome, HandlesOk, StagingOk;
    HandleFacts(s, a, t);
    if a.Fill? {
      StagedNotTaken(s, a.h, a.buf);
    }
  }

  lemma HandleJournalStep(s: Sys, a: Action, t: Sys)
    requires Inv(s) && Step(s, a, t) && !a.Tick? && Shaped(t)
    ensures JournalInv(t)
  {
    hide PhysOf, Step, JournalInv, HandlesOk, StagingOk, HomeOlder, BufsOlder, DirectOk, NodesHome, Unshared;
    hide SameJournal, SameTaken, IsHome;
    HandleFacts(s, a, t);
    HandleSameTaken(s, a, t);
    JournalParts(s);
    if a.WriteDirect? {
      HomeWriteSame(s.disk, s.g, a.b, a.data);
    }
    JournalFrame(s, t);
  }

  lemma ReclaimJournal(s: Sys, t: Sys)
    requires Inv(s) && s.pc.Reclaiming? && ReclaimTick(s, t) && Shaped(t)
    ensures JournalInv(t)
  {
    hide PhysOf, JournalInv, Older, HomeOlder, DirectOk, StagingOk, HandlesOk, Shaped, ReclaimTick, PopOldest;
    JournalParts(s);
    var ns, direct := s.pc.nodes, s.pc.direct;
    ReclaimCases(s, t);
    if s.ckpt != [] && t == PopOldest(s, ToReclaim(ns, direct)) {
      TickPop(s, t, ToReclaim(ns, direct));
    } else if t == GivenUp(s) {
      TickQuiet(s, t);
    } else {
      assert PcNodes(s) == ns;
      BeginCommit(s, t, ns, direct);
    }
  }

  lemma CommitJournal(s: Sys, t: Sys)
    requires JournalInv(s) && Shaped(s) && s.pc.Committing? && CommitTick(s, t) && Shaped(t)
    ensures JournalInv(t)
  {
    hide PhysOf, JournalInv, CommitScript, Published, Shaped;
    if s.pc.done < |CommitScript(s)| {
      CommitOp(s, t);
    } else {
      PublishStep(s, t);
    }
  }

  lemma CheckpointJournal(s: Sys, t: Sys)
    requires JournalInv(s) && Shaped(s) && s.pc.Checkpointing? && CheckpointTick(s, t) && Shaped(t)
    ensures JournalInv(t)
  {
    hide PhysOf, JournalInv, CheckpointScript, NewTail, Shaped;
    if s.pc.done < |CheckpointScript(s)| {
      CheckpointOp(s, t);
    } else {
      CheckpointEnd(s, t);
    }
  }

  lemma LagJournal(s: Sys, t: Sys)
    requires JournalInv(s) && s.pc.Lagging? && LagTick(s, t) && Shaped(t)
    ensures JournalInv(t)
  {
    hide PhysOf, JournalInv, Shaped;
    if |s.ckpt| > CKPT_LAG {
      TickPop(s, t, ToLag);
    } else {
      TickQuiet(s, t);
    }
  }

  lemma DrainJournal(s: Sys, t: Sys)
    requires JournalInv(s) && s.pc.Draining? && DrainTick(s, t) && Shaped(t)
    ensures JournalInv(t)
  {
    hide PhysOf, JournalInv, Shaped;
    if s.ckpt != [] {
      TickPop(s, t, ToDrain);
    } else {
      TickQuiet(s, t);
    }
  }

  lemma FreezeJournal(s: Sys, t: Sys, nodes: seq<Node>)
    requires JournalInv(s) && s.pc.Freezing? && FreezeTick(s, t, nodes) && Shaped(t)
    ensures JournalInv(t)
  {
    hide PhysOf, JournalInv, Shaped, Flattens;
    TickQuiet(s, t);
  }

  lemma TickJournalStep(s: Sys, nodes: seq<Node>, t: Sys)
    requires Inv(s) && Shaped(s) && TickStep(s, t, nodes) && Shaped(t)
    ensures JournalInv(t)
  {
    hide PhysOf, JournalInv, NodesHome, BufsOlder, HomeOlder, DirectOk, StagingOk, HandlesOk, Shaped;
    hide FreezeTick, ReclaimTick, CommitTick, CheckpointTick, LagTick, DrainTick;
    match s.pc
    case Waiting => TickQuiet(s, t);
    case Freezing => FreezeJournal(s, t, nodes);
    case Forcing(_, _) => ForceStep(s, t);
    case Reclaiming(_, _) => ReclaimJournal(s, t);
    case Committing(_, _, _) => CommitJournal(s, t);
    case Checkpointing(_, _, _) => CheckpointJournal(s, t);
    case Lagging => LagJournal(s, t);
    case Draining => DrainJournal(s, t);
    case Stopped =>
  }

  lemma TickQuiet(s: Sys, t: Sys)
    requires JournalInv(s) && Shaped(t) && LiveList(t) == LiveList(s) && t.bufs == s.bufs
    requires t.g == s.g && t.tail == s.tail && t.next == s.next && t.head == s.head && t.disk == s.disk
    requires !s.pc.Committing? && !s.pc.Checkpointing? && !t.pc.Committing? && !t.pc.Checkpointing?
    ensures JournalInv(t)
  {
    hide PhysOf, JournalOk, Tiles, Span;
    QuietStep(s, t);
  }

  lemma TickPop(s: Sys, t: Sys, resume: Resume)
    requires JournalInv(s) && !s.pc.Committing? && !s.pc.Checkpointing? && s.ckpt != []
    requires Shaped(t) && t == PopOldest(s, resume)
    ensures JournalInv(t)
  {
    hide PhysOf, JournalOk, Tiles, Span;
    PopStep(s, t, resume);
  }

  // ---- what has been taken ----

  /** The transaction a commit in progress puts on the list. */
  function Publishing(s: Sys): Committed
    requires s.pc.Committing? && s.next < U64
  {
    Committed(s.next, s.head, s.pc.nodes, s.pc.direct)
  }

  /** The same generation is on its way, and the same transactions are in the log. */
  ghost predicate Holding(s: Sys, t: Sys) {
    PcNodes(t) == PcNodes(s) && PcDirect(t) == PcDirect(s) && LiveList(t) == LiveList(s)
  }

  /** Nothing is on its way any more; a generation that was has been given up. */
  ghost predicate EmptyHanded(s: Sys, t: Sys) {
    && PcNodes(t) == [] && PcDirect(t) == [] && LiveList(t) == LiveList(s)
    && (PcNodes(s) == [] || (s.pc.Reclaiming? && t.pc.Lagging?))
  }

  /** Except at the snapshot, what is taken only moves along the pipeline. */
  ghost predicate Passes(s: Sys, t: Sys) {
    && (t.pc.Checkpointing? && !s.pc.Checkpointing? ==> t.pc.done == 0)
    && (|| (Holding(s, t) && t.next == s.next)
        || (EmptyHanded(s, t) && t.next == s.next)
        || (s.pc.Committing? && s.next < U64 && t.next == s.next + 1 && PcNodes(t) == [] && PcDirect(t) == []
            && LiveList(t) == LiveList(s) + [Publishing(s)])
        || (s.pc.Checkpointing? && t.next == s.next && PcNodes(t) == PcNodes(s) && PcDirect(t) == PcDirect(s)
            && LiveList(s) != [] && LiveList(t) == LiveList(s)[1..]))
  }

  lemma PopPasses(s: Sys, t: Sys, resume: Resume)
    requires s.ckpt != [] && t == PopOldest(s, resume) && !s.pc.Checkpointing?
    requires if resume.ToReclaim? then PcNodes(s) == resume.nodes && PcDirect(s) == resume.direct
             else PcNodes(s) == [] && PcDirect(s) == []
    ensures Passes(s, t)
  {
    assert LiveList(t) == LiveList(s);
  }

  lemma ReclaimPasses(s: Sys, t: Sys)
    requires s.pc.Reclaiming? && ReclaimTick(s, t)
    ensures Passes(s, t)
  {
    hide ReclaimTick, PopOldest, Passes;
    ReclaimCases(s, t);
    if s.ckpt != [] && t == PopOldest(s, ToReclaim(s.pc.nodes, s.pc.direct)) {
      PopPasses(s, t, ToReclaim(s.pc.nodes, s.pc.direct));
    } else {
      MovePasses(s, t);
    }
  }

  lemma MovePasses(s: Sys, t: Sys)
    requires t.ckpt == s.ckpt && t.next == s.next && !t.pc.Checkpointing? && !s.pc.Checkpointing?
    requires (PcNodes(t) == PcNodes(s) && PcDirect(t) == PcDirect(s))
          || (PcNodes(t) == [] && PcDirect(t) == [] && (PcNodes(s) == [] || (s.pc.Reclaiming? && t.pc.Lagging?)))
    ensures Passes(s, t)
  {}

  lemma PublishPasses(s: Sys, t: Sys)
    requires s.pc.Committing? && s.next < U64 && t == Published(s)
    ensures Passes(s, t)
  {
    assert LiveList(t) == LiveList(s) + [Publishing(s)];
  }

  lemma CommitPasses(s: Sys, t: Sys)
    requires Shaped(s) && s.pc.Committing? && CommitTick(s, t)
    ensures Passes(s, t)
  {
    hide PhysOf, CommitScript, Shaped, Passes, Published;
    if s.pc.done < |CommitScript(s)| {
      MovePasses(s, t);
    } else {
      PublishPasses(s, t);
    }
  }

  lemma EndPasses(s: Sys, t: Sys)
    requires s.pc.Checkpointing? && t == s.(tail := t.tail, pc := Resumed(s.pc.resume))
    ensures Passes(s, t)
  {
    assert LiveList(t) == LiveList(s)[1..];
  }

  lemma InstallPasses(s: Sys, t: Sys, done: nat)
    requires s.pc.Checkpointing? && t == s.(disk := t.disk, pc := Checkpointing(s.pc.txn, done, s.pc.resume))
    ensures Passes(s, t)
  {}

  lemma CheckpointPasses(s: Sys, t: Sys)
    requires Shaped(s) && s.pc.Checkpointing? && CheckpointTick(s, t)
    ensures Passes(s, t)
  {
    hide PhysOf, CheckpointScript, CheckpointTick, Shaped, Passes, Resumed;
    CheckpointCases(s, t);
    if s.pc.done < |CheckpointScript(s)| {
      InstallPasses(s, t, s.pc.done + 1);
    } else {
      EndPasses(s, t);
    }
  }

  lemma LagPasses(s: Sys, t: Sys)
    requires s.pc.Lagging? && LagTick(s, t)
    ensures Passes(s, t)
  {
    hide PopOldest, Passes;
    if |s.ckpt| > CKPT_LAG {
      PopPasses(s, t, ToLag);
    } else {
      MovePasses(s, t);
    }
  }

  lemma DrainPasses(s: Sys, t: Sys)
    requires s.pc.Draining? && DrainTick(s, t)
    ensures Passes(s, t)
  {
    hide PopOldest, Passes;
    if s.ckpt != [] {
      PopPasses(s, t, ToDrain);
    } else {
      MovePasses(s, t);
    }
  }

  lemma TickPasses(s: Sys, nodes: seq<Node>, t: Sys)
    requires Shaped(s) && TickStep(s, t, nodes) && !s.pc.Freezing?
    ensures Passes(s, t)
  {
    hide PhysOf, Shaped, FreezeTick, ReclaimTick, CommitTick, CheckpointTick, LagTick, DrainTick, Passes;
    match s.pc
    case Waiting => MovePasses(s, t);
    case Forcing(_, _) => MovePasses(s, t);
    case Reclaiming(_, _) => ReclaimPasses(s, t);
    case Committing(_, _, _) => CommitPasses(s, t);
    case Checkpointing(_, _, _) => CheckpointPasses(s, t);
    case Lagging => LagPasses(s, t);
    case Draining => DrainPasses(s, t);
    case Stopped =>
  }

  lemma PassesTaken(s: Sys, t: Sys, buf: nat)
    requires Passes(s, t) && Taken(t, buf)
    ensures Taken(s, buf)
  {
    var list := LiveList(t);
    if i, k :| 0 <= i < |list| && 0 <= k < |list[i].nodes| && list[i].nodes[k].buf == buf {
      if list == LiveList(s) {
      } else if LiveList(s) != [] && list == LiveList(s)[1..] {
        assert LiveList(s)[i + 1] == list[i];
      } else if i < |LiveList(s)| {
        assert LiveList(s)[i] == list[i];
      } else {
        assert list[i].nodes == PcNodes(s);
      }
    }
  }

  lemma TakenIn(s: Sys, buf: nat)
    requires Shaped(s) && LiveBufsIn(s) && Taken(s, buf)
    ensures buf < |s.bufs|
  {
    hide PhysOf;
  }

  // ---- staging ----

  lemma StagingTick(s: Sys, nodes: seq<Node>, t: Sys)
    requires StagingOk(s) && Shaped(s) && TickStep(s, t, nodes)
    ensures StagingOk(t)
  {
    hide PhysOf, TickStep, Taken, Shaped, Flattens, Passes;
    TickFrame(s, nodes, t);
    if !s.pc.Freezing? {
      TickPasses(s, nodes, t);
      forall b | b in t.staged ensures !Taken(t, t.staged[b]) {
        if Taken(t, t.staged[b]) {
          PassesTaken(s, t, t.staged[b]);
        }
      }
    }
  }

  lemma SameTakenSet(s: Sys, t: Sys, buf: nat)
    requires t.ckpt == s.ckpt && t.pc == s.pc
    ensures Taken(t, buf) <==> Taken(s, buf)
  {
    assert LiveList(t) == LiveList(s) && PcNodes(t) == PcNodes(s);
  }

  /** Staging: nothing new for a staged block, one new buffer for another. */
  lemma StageFacts(s: Sys, h: nat, b: u64)
    requires Shaped(s) && h in s.handles && b < |s.disk.base|
    ensures var t := StageStep(s, h, b);
            t.g == s.g && t.disk == s.disk && t.ckpt == s.ckpt && t.pc == s.pc
            && if b in s.staged then t.staged == s.staged && t.bufs == s.bufs
               else t.staged == s.staged[b := |s.bufs|] && |t.bufs| == |s.bufs| + 1
  {
    hide PhysOf, Seed, Shaped;
  }

  lemma StagingStage(s: Sys, h: nat, b: u64)
    requires StagingOk(s) && Shaped(s) && LiveBufsIn(s) && h in s.handles && IsHome(s.g, |s.disk.base|, b)
    requires b < |s.disk.base|
    ensures StagingOk(StageStep(s, h, b))
  {
    hide PhysOf, StageStep, Taken, IsHome, Shaped;
    var t := StageStep(s, h, b);
    StageFacts(s, h, b);
    NewBufferNotTaken(s);
    forall c | c in t.staged ensures !Taken(t, t.staged[c]) {
      SameTakenSet(s, t, t.staged[c]);
    }
  }

  lemma NewBufferNotTaken(s: Sys)
    requires Shaped(s) && LiveBufsIn(s)
    ensures !Taken(s, |s.bufs|)
  {
    hide PhysOf, Taken, Shaped;
    if Taken(s, |s.bufs|) {
      TakenIn(s, |s.bufs|);
    }
  }

  lemma HomeBlock(g: Geometry, nblocks: nat, b: nat)
    requires IsHome(g, nblocks, b)
    ensures b < nblocks
  {}

  lemma StagingStep(s: Sys, a: Action, t: Sys)
    requires Inv(s) && Step(s, a, t)
    ensures StagingOk(t)
  {
    hide PhysOf, Seed, Taken, IsHome, TickStep, StageStep, View, Older, Shaped;
    hide JournalOk, Tiles, Span, HandlesOk, NodesHome, BufsOlder, HomeOlder, DirectOk;
    match a
    case Tick(nodes) => StagingTick(s, nodes, t);
    case Stage(h, b) =>
      HomeBlock(s.g, |s.disk.base|, b);
      StagingStage(s, h, b);
    case _ =>
      forall c | c in t.staged ensures !Taken(t, t.staged[c]) {
        SameTakenSet(s, t, t.staged[c]);
      }
  }

  lemma FlattenedHome(s: Sys, nodes: seq<Node>)
    requires StagingOk(s) && Flattens(nodes, s.staged)
    ensures forall i :: 0 <= i < |nodes| ==> IsHome(s.g, |s.disk.base|, nodes[i].blockno)
  {
    hide PhysOf, IsHome, Taken;
  }

  lemma NodesStep(s: Sys, a: Action, t: Sys)
    requires StagingOk(s) && NodesHome(s) && Step(s, a, t)
    ensures NodesHome(t)
  {
    hide PhysOf, Seed, Taken, IsHome, TickStep, View, Older, Shaped, StagingOk, Flattens, Passes;
    ShapedStep(s, a, t);
    if a.Tick? {
      TickFrame(s, a.nodes, t);
      if s.pc.Freezing? {
        FlattenedHome(s, a.nodes);
      } else {
        TickPasses(s, a.nodes, t);
        PassesNodes(s, t);
      }
    } else {
      if a.Stage? {
        HomeBlock(s.g, |s.disk.base|, a.b);
      }
      assert t.pc == s.pc && PcNodes(t) == PcNodes(s);
    }
  }

  lemma PassesNodes(s: Sys, t: Sys)
    requires Passes(s, t)
    ensures !(s.pc.Reclaiming? && t.pc.Lagging?) ==> PcNodes(t) == if t.next == s.next then PcNodes(s) else []
    ensures t.next == s.next || s.pc.Committing?
    ensures !s.pc.Checkpointing? ==> LiveList(t) == LiveList(s) || t.next != s.next
    ensures t.pc.Checkpointing? && !s.pc.Checkpointing? ==> t.pc.done == 0
    ensures PcNodes(t) == PcNodes(s) || PcNodes(t) == []
    ensures PcDirect(t) == PcDirect(s) || PcDirect(t) == []
  {}

  lemma PassesUnshared(s: Sys, t: Sys)
    requires Passes(s, t) && Unshared(s)
    ensures Unshared(t)
  {
    hide PhysOf, NodeIn;
    var list := LiveList(t);
    forall i, buf | 0 <= i < |list| && NodeIn(list[i].nodes, buf) ensures !NodeIn(PcNodes(t), buf) {
      EmptyNodes(buf);
      if PcNodes(t) != [] {
        assert list == LiveList(s) || list[i] == LiveList(s)[i + 1];
      }
    }
  }

  lemma EmptyNodes(buf: nat)
    ensures !NodeIn([], buf)
  {}

  lemma FreezeUnshared(s: Sys, nodes: seq<Node>, t: Sys)
    requires StagingOk(s) && s.pc.Freezing? && FreezeTick(s, t, nodes)
    ensures Unshared(t)
  {
    hide PhysOf, IsHome;
    assert LiveList(t) == LiveList(s) && PcNodes(t) == nodes;
    forall i, buf | 0 <= i < |LiveList(t)| && NodeIn(LiveList(t)[i].nodes, buf) ensures !NodeIn(nodes, buf) {
      assert Taken(s, buf);
    }
  }

  lemma UnsharedStep(s: Sys, a: Action, t: Sys)
    requires StagingOk(s) && Unshared(s) && Step(s, a, t)
    ensures Unshared(t)
  {
    hide PhysOf, Seed, IsHome, TickStep, View, Older, Shaped, StagingOk, Passes, Unshared, FreezeTick;
    if a.Tick? {
      TickFrame(s, a.nodes, t);
      if s.pc.Freezing? {
        FreezeUnshared(s, a.nodes, t);
      } else {
        TickPasses(s, a.nodes, t);
        PassesUnshared(s, t);
      }
    } else {
      if a.Stage? {
        HomeBlock(s.g, |s.disk.base|, a.b);
      }
      SameUnshared(s, t);
    }
  }

  lemma SameUnshared(s: Sys, t: Sys)
    requires Unshared(s) && t.ckpt == s.ckpt && t.pc == s.pc
    ensures Unshared(t)
  {
    assert LiveList(t) == LiveList(s) && PcNodes(t) == PcNodes(s);
  }

  // ---- content ----

  lemma {:induction false} FindCheckpointedFrom(bufs: seq<Block>, txns: seq<Committed>, b: nat, n: nat)
    requires AllBufsIn(txns, |bufs|) && BufsOlder(bufs, n)
    ensures FindCheckpointed(bufs, txns, b).Some? ==> Older(FindCheckpointed(bufs, txns, b).value, n)
    decreases |txns|
  {
    hide PhysOf, Older;
    if txns != [] {
      var copies := CopiesOf(bufs, txns[|txns| - 1].nodes);
      if LastCopy(copies, b).Some? {
        var k := LastIndex(copies, b);
        LastCopyIndex(copies, b);
      } else {
        FindCheckpointedFrom(bufs, txns[..|txns| - 1], b, n);
      }
    }
  }

  lemma SeedOlder(s: Sys, b: nat)
    requires Shaped(s) && BufsOlder(s.bufs, s.next) && HomeOlder(s.disk, s.g, s.next) && IsHome(s.g, |s.disk.base|, b)
    ensures b < |s.disk.base| && AllBufsIn(s.ckpt, |s.bufs|) && Older(Seed(s, b), s.next)
  {
    hide PhysOf, Older, View, BufsOlder, May;
    FindCheckpointedFrom(s.bufs, s.ckpt, b, s.next);
    assert BlockOlder(s.disk, b, s.next);
    ViewMay(s.disk, b);
  }

  lemma AllOlderLater(bufs: seq<Block>, n: nat)
    requires BufsOlder(bufs, n)
    ensures BufsOlder(bufs, n + 1)
  {
    hide PhysOf, Older;
    forall i | 0 <= i < |bufs| ensures Older(bufs[i], n + 1) {
      OlderLater(bufs[i], n);
    }
  }

  /** op leaves home blocks alone or writes an older block to one. */
  ghost predicate HomeSafe(op: Op, g: Geometry, nblocks: nat, n: nat) {
    op.Write? && IsHome(g, nblocks, op.blockno) ==> Older(op.data, n)
  }

  lemma HomeOlderDo(d: Disk, op: Op, g: Geometry, n: nat)
    requires HomeOlder(d, g, n) && HomeSafe(op, g, |d.base|, n)
    ensures HomeOlder(Do(d, op), g, n)
  {
    hide PhysOf, Older, BlockOlder;
    forall b: nat | IsHome(g, |d.base|, b) ensures BlockOlder(Do(d, op), b, n) {
      BlockOlderDo(d, op, b, n);
    }
  }

  lemma HomeOlderLater(d: Disk, g: Geometry, n: nat)
    requires HomeOlder(d, g, n)
    ensures HomeOlder(d, g, n + 1)
  {
    hide PhysOf, Older, May;
    var m := n + 1;
    forall b: nat | IsHome(g, |d.base|, b) ensures BlockOlder(d, b, m) {
      forall v | May(d, b, v) ensures Older(v, m) {
        assert BlockOlder(d, b, n);
        OlderLater(v, n);
      }
    }
  }

  /** A checkpoint writes its copies home and nothing else there. */
  lemma CheckpointOpsHome(g: Geometry, copies: seq<Copy>, newTail: nat, newSequence: nat, head: nat, k: nat)
    requires k < |copies| + 3
    ensures var op := CheckpointOps(g, copies, newTail, newSequence, head)[k];
            if k < |copies| then op == Write(copies[k].target, copies[k].data) else op.Write? ==> op.blockno == JSUPER
  {
    hide PhysOf, TailSuper;
  }

  lemma PublishContent(s: Sys, t: Sys)
    requires s.pc.Committing? && s.next < U64 && t == Published(s)
    requires BufsOlder(s.bufs, s.next) && HomeOlder(s.disk, s.g, s.next)
    ensures BufsOlder(t.bufs, t.next) && HomeOlder(t.disk, t.g, t.next)
  {
    hide PhysOf, BufsOlder, HomeOlder;
    AllOlderLater(s.bufs, s.next);
    HomeOlderLater(s.disk, s.g, s.next);
  }

  lemma CommitScriptAway(s: Sys)
    requires Shaped(s) && s.pc.Committing? && s.next < U64 && |s.pc.nodes| <= MAX_TAGS && s.pc.done < |CommitScript(s)|
    ensures var op := CommitScript(s)[s.pc.done]; op.Write? ==> !IsHome(s.g, |s.disk.base|, op.blockno)
  {
    hide PhysOf, CommitOps, CopiesOf, IsHome;
    CommitOpsAway(s.g, |s.disk.base|, s.head, s.tail == s.head, TxnOf(s.bufs, s.next, s.pc.nodes), s.pc.done);
  }

  lemma CommitContent(s: Sys, t: Sys)
    requires Shaped(s) && s.pc.Committing? && CommitTick(s, t)
    requires BufsOlder(s.bufs, s.next) && HomeOlder(s.disk, s.g, s.next)
    ensures BufsOlder(t.bufs, t.next) && HomeOlder(t.disk, t.g, t.next)
  {
    hide PhysOf, BufsOlder, HomeOlder, CommitScript, Published, Shaped, IsHome;
    if s.pc.done < |CommitScript(s)| {
      CommitScriptAway(s);
      HomeOlderDo(s.disk, CommitScript(s)[s.pc.done], s.g, s.next);
    } else {
      PublishContent(s, t);
    }
  }

  lemma CheckpointScriptHome(s: Sys)
    requires Shaped(s) && s.pc.Checkpointing? && s.pc.done < |CheckpointScript(s)|
    ensures var op := CheckpointScript(s)[s.pc.done];
            if s.pc.done < |s.pc.txn.nodes| then
              op == Write(s.pc.txn.nodes[s.pc.done].blockno, s.bufs[s.pc.txn.nodes[s.pc.done].buf])
            else op.Write? ==> op.blockno == JSUPER
  {
    hide PhysOf, CheckpointOps, NewTail, NewTailSequence;
    CheckpointOpsHome(s.g, CopiesOf(s.bufs, s.pc.txn.nodes), NewTail(s), NewTailSequence(s), s.head, s.pc.done);
  }

  lemma CheckpointContent(s: Sys, t: Sys)
    requires Shaped(s) && s.pc.Checkpointing? && CheckpointTick(s, t)
    requires BufsOlder(s.bufs, s.next) && HomeOlder(s.disk, s.g, s.next)
    ensures BufsOlder(t.bufs, t.next) && HomeOlder(t.disk, t.g, t.next)
  {
    hide PhysOf, HomeOlder, Older, CheckpointScript, CheckpointTick, Shaped, Resumed;
    CheckpointCases(s, t);
    if s.pc.done < |CheckpointScript(s)| {
      ShapedTxn(s);
      CheckpointScriptHome(s);
      HomeOlderDo(s.disk, CheckpointScript(s)[s.pc.done], s.g, s.next);
    }
  }

  lemma ShapedTxn(s: Sys)
    requires Shaped(s) && s.pc.Checkpointing?
    ensures BufsIn(s.pc.txn.nodes, |s.bufs|)
  {
    hide PhysOf;
  }

  lemma ContentTick(s: Sys, nodes: seq<Node>, t: Sys)
    requires Shaped(s) && TickStep(s, t, nodes)
    requires BufsOlder(s.bufs, s.next) && HomeOlder(s.disk, s.g, s.next)
    ensures BufsOlder(t.bufs, t.next) && HomeOlder(t.disk, t.g, t.next)
  {
    hide PhysOf, HomeOlder, BufsOlder, Shaped, FreezeTick, ReclaimTick, CommitTick, CheckpointTick, LagTick, DrainTick;
    TickFrame(s, nodes, t);
    match s.pc
    case Forcing(_, _) => HomeOlderDo(s.disk, Flush, s.g, s.next);
    case Committing(_, _, _) => CommitContent(s, t);
    case Checkpointing(_, _, _) => CheckpointContent(s, t);
    case _ =>
  }

  lemma ContentStep(s: Sys, a: Action, t: Sys)
    requires BufsOlder(s.bufs, s.next) && HomeOlder(s.disk, s.g, s.next) && Step(s, a, t)
    ensures BufsOlder(t.bufs, t.next) && HomeOlder(t.disk, t.g, t.next)
  {
    hide PhysOf, HomeOlder, Older, TickStep, View, IsHome, Seed, Shaped;
    match a
    case Tick(nodes) => ContentTick(s, nodes, t);
    case Stage(h, b) => SeedOlder(s, b);
    case WriteDirect(h, b, data) => HomeOlderDo(s.disk, Write(b, data), s.g, s.next);
    case _ =>
  }

  // ---- ordered data ----

  ghost predicate Extends(d: Disk, e: Disk) {
    e.base == d.base && d.log <= e.log
  }

  lemma DirectExtends(d: Disk, e: Disk, g: Geometry, xs: seq<nat>)
    requires Extends(d, e) && DirectIn(d, g, xs)
    ensures DirectIn(e, g, xs)
    ensures DirectFlushed(d, xs) ==> DirectFlushed(e, xs)
  {
    hide PhysOf, IsHome;
    if DirectFlushed(d, xs) {
      forall i | 0 <= i < |xs| ensures Flushed(e, xs[i]) {
        assert Flushed(d, xs[i]);
        var f :| xs[i] < f < |d.log| && d.log[f].Flush?;
        assert e.log[f].Flush?;
      }
    }
  }

  lemma ListExtends(d: Disk, e: Disk, g: Geometry, list: seq<Committed>)
    requires Extends(d, e) && ListDirect(d, g, list)
    ensures ListDirect(e, g, list)
  {
    hide PhysOf, DirectIn, DirectFlushed;
    forall i | 0 <= i < |list| ensures DirectIn(e, g, list[i].direct) && DirectFlushed(e, list[i].direct) {
      DirectExtends(d, e, g, list[i].direct);
    }
  }

  lemma FlushFlushes(d: Disk, g: Geometry, xs: seq<nat>)
    requires DirectIn(d, g, xs)
    ensures DirectFlushed(Do(d, Flush), xs)
  {
    hide PhysOf, IsHome;
    forall i | 0 <= i < |xs| ensures Flushed(Do(d, Flush), xs[i]) {
      assert Do(d, Flush).log[|d.log|].Flush?;
    }
  }

  /** What has been taken keeps its durable data wherever it moves. */
  lemma PassesDirect(s: Sys, t: Sys)
    requires DirectOk(s) && Passes(s, t) && !s.pc.Forcing? && !t.pc.Forcing? && Extends(s.disk, t.disk)
    requires t.g == s.g && t.ordered == s.ordered && t.direct == s.direct
    ensures DirectOk(t)
  {
    hide PhysOf, DirectIn, DirectFlushed, ListDirect, Extends;
    DirectExtends(s.disk, t.disk, s.g, s.direct);
    DirectExtends(s.disk, t.disk, s.g, PcDirect(s));
    ListExtends(s.disk, t.disk, s.g, LiveList(s));
    NothingDirect(t.disk, t.g);
    ListSnoc(t.disk, t.g, LiveList(s), PcDirect(s), s, t);
  }

  lemma NothingDirect(d: Disk, g: Geometry)
    ensures DirectIn(d, g, []) && DirectFlushed(d, [])
  {}

  lemma ListSnoc(d: Disk, g: Geometry, list: seq<Committed>, xs: seq<nat>, s: Sys, t: Sys)
    requires ListDirect(d, g, list) && DirectIn(d, g, xs) && DirectFlushed(d, xs)
    requires list == LiveList(s) && xs == PcDirect(s) && Passes(s, t)
    ensures ListDirect(d, g, LiveList(t))
  {
    hide PhysOf, DirectIn, DirectFlushed;
    forall i | 0 <= i < |LiveList(t)|
      ensures DirectIn(d, g, LiveList(t)[i].direct) && DirectFlushed(d, LiveList(t)[i].direct)
    {
      if LiveList(t) != list && list != [] && LiveList(t) == list[1..] {
        assert LiveList(t)[i] == list[i + 1];
      } else if i < |list| {
        assert LiveList(t)[i] == list[i];
      } else {
        assert LiveList(t)[i].direct == xs;
      }
    }
  }

  lemma DirectForce(s: Sys, t: Sys)
    requires DirectOk(s) && s.pc.Forcing? && ForceTick(s, t)
    ensures DirectOk(t)
  {
    hide PhysOf, DirectIn, DirectFlushed, ListDirect;
    NothingDirect(t.disk, t.g);
    assert LiveList(t) == LiveList(s);
    FlushFlushes(s.disk, s.g, s.pc.direct);
    DirectExtends(s.disk, t.disk, s.g, s.pc.direct);
    DirectExtends(s.disk, t.disk, s.g, s.direct);
    ListExtends(s.disk, t.disk, s.g, LiveList(s));
  }

  lemma DirectTick(s: Sys, nodes: seq<Node>, t: Sys)
    requires DirectOk(s) && Shaped(s) && TickStep(s, t, nodes)
    ensures DirectOk(t)
  {
    hide PhysOf, TickStep, Shaped, DirectOk, Flattens, Passes;
    TickFrame(s, nodes, t);
    if s.pc.Freezing? {
      DirectFreeze(s, nodes, t);
    } else if s.pc.Forcing? {
      ForcingTick(s, nodes, t);
      DirectForce(s, t);
    } else {
      TickPasses(s, nodes, t);
      PassesDirect(s, t);
    }
  }

  lemma ForcingTick(s: Sys, nodes: seq<Node>, t: Sys)
    requires Shaped(s) && TickStep(s, t, nodes) && s.pc.Forcing?
    ensures ForceTick(s, t)
  {
    hide ForceTick, Shaped, PhysOf;
  }

  lemma DirectFreeze(s: Sys, nodes: seq<Node>, t: Sys)
    requires DirectOk(s) && s.pc.Freezing? && FreezeTick(s, t, nodes)
    ensures DirectOk(t)
  {
    hide PhysOf, DirectFlushed, ListDirect, Flattens;
    assert LiveList(t) == LiveList(s);
  }

  lemma DirectWrite(s: Sys, b: u64, data: Block)
    requires DirectOk(s) && s.ordered && IsHome(s.g, |s.disk.base|, b)
    ensures DirectOk(s.(disk := Do(s.disk, Write(b, data)), direct := s.direct + [|s.disk.log|]))
  {
    hide PhysOf, IsHome, DirectFlushed, ListDirect;
    var t := s.(disk := Do(s.disk, Write(b, data)), direct := s.direct + [|s.disk.log|]);
    DirectExtends(s.disk, t.disk, s.g, s.direct);
    DirectExtends(s.disk, t.disk, s.g, PcDirect(s));
    ListExtends(s.disk, t.disk, s.g, LiveList(s));
    assert LiveList(t) == LiveList(s);
  }

  lemma DirectSame(s: Sys, t: Sys)
    requires DirectOk(s) && t.disk == s.disk && t.g == s.g && t.direct == s.direct && t.pc == s.pc
    requires t.ckpt == s.ckpt && t.ordered == s.ordered
    ensures DirectOk(t)
  {
    hide PhysOf, DirectIn, DirectFlushed, ListDirect;
    assert LiveList(t) == LiveList(s);
  }

  lemma DirectStep(s: Sys, a: Action, t: Sys)
    requires DirectOk(s) && Step(s, a, t)
    ensures DirectOk(t)
  {
    hide PhysOf, IsHome, Seed, View, TickStep, Shaped, DirectOk, Older;
    match a
    case Tick(nodes) => DirectTick(s, nodes, t);
    case WriteDirect(h, b, data) => DirectWrite(s, b, data);
    case Stage(h, b) =>
      HomeBlock(s.g, |s.disk.base|, b);
      DirectSame(s, t);
    case _ => DirectSame(s, t);
  }

  // ---- all of it ----

  /** Every step, by a handle or by the commit thread, keeps the invariant. */
  lemma InvStep(s: Sys, a: Action, t: Sys)
    requires Inv(s) && Step(s, a, t)
    ensures Inv(t)
  {
    hide PhysOf, Step, TickStep, JournalInv, HandlesOk, StagingOk, NodesHome, BufsOlder, HomeOlder, DirectOk, Unshared;
    ShapedStep(s, a, t);
    if a.Tick? {
      IsTick(s, a, t);
      TickJournalStep(s, a.nodes, t);
    } else {
      HandleJournalStep(s, a, t);
    }
    HandlesStep(s, a, t);
    StagingStep(s, a, t);
    NodesStep(s, a, t);
    ContentStep(s, a, t);
    DirectStep(s, a, t);
    UnsharedStep(s, a, t);
  }

  lemma IsTick(s: Sys, a: Action, t: Sys)
    requires Step(s, a, t) && a.Tick?
    ensures Shaped(s) && TickStep(s, t, a.nodes)
  {
    hide TickStep, Shaped, PhysOf;
  }

  /** Every state of every run from a session's beginning satisfies the invariant. */
  lemma {:induction false} RunInv(states: seq<Sys>, actions: seq<Action>, i: nat)
    requires IsRun(states, actions) && Init(states[0]) && i < |states|
    ensures Inv(states[i])
  {
    hide PhysOf, Step, Inv, Init;
    if i == 0 {
      InitInv(states[0]);
    } else {
      RunInv(states, actions, i - 1);
      InvStep(states[i - 1], actions[i - 1], states[i - 1 + 1]);
    }
  }
}
