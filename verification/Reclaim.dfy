/** Space: what a commit may rely on, when one is given up, and what a clean stop leaves. */
module Reclaim {
  import opened Bytes
  import opened DiskFormat
  import opened Device
  import opened LogFormat
  import opened Replay
  import opened CrashSafety
  import opened Checkpoint
  import opened Pipeline
  import opened PipelineJournal
  import opened PipelineInv
  import opened LogicalDisk
  import opened CrashRuns

  /** The listed transactions fill the log from tail to head, and never more than the region. */
  lemma SpaceTaken(s: Sys)
    requires JournalInv(s)
    ensures s.tail <= s.head <= s.tail + s.g.maxlen
    ensures FreeSpace(s.g.maxlen, s.head, s.tail) == s.g.maxlen - Span(LiveList(s)) >= 0
    ensures s.tail == s.head <==> LiveList(s) == []
  {
    hide PhysOf, Shaped, Tiles, Mid, Moving, Stable;
    JournalParts(s);
    WellFormedParts(LogOf(s), |s.disk.base|);
    SpanEmpty(LiveList(s));
  }

  /** Transaction i of a tiled list begins where the i before it end, and has number i. */
  lemma {:induction false} TilesAt(list: seq<Committed>, off: nat, number: nat, i: nat)
    requires Tiles(list, off, number) && i < |list|
    ensures list[i].descOffset == off + Span(list[..i]) && list[i].sequence == number + i
    decreases |list|
  {
    if i > 0 {
      assert list[1..][..i - 1] == list[..i][1..];
      TilesAt(list[1..], off + |list[0].nodes| + 2, number + 1, i - 1);
    }
  }

  /** The slots of a commit that fits are distinct, and none of them is a live one. */
  lemma NoLiveOverwrite(s: Sys, ndata: nat, i: nat, j: nat)
    requires JournalInv(s) && ndata <= MAX_TAGS
    requires SpaceNeeded(ndata, 0) <= FreeSpace(s.g.maxlen, s.head, s.tail) && s.head + SpaceNeeded(ndata, 0) < U64
    requires i < SpaceNeeded(ndata, 0) && s.tail <= j < s.head + i
    ensures Fits(s.g, |s.disk.base|) && PhysOf(s.g, s.head + i) != PhysOf(s.g, j)
  {
    hide PhysOf, Shaped, JournalInv, WellFormed, LiveList, Span;
    assert Fits(s.g, |s.disk.base|) by {
      JournalParts(s);
    }
    SpaceTaken(s);
    PhysDistinct(s.g, j, s.head + i);
  }

  /**
   The reclaim loop takes a transaction off the list while there is one and the space is
   short. The generation is given up exactly when it is too big for one descriptor, or for
   the whole region with the log empty.
   */
  lemma ReclaimOutcome(s: Sys, t: Sys)
    requires JournalInv(s) && s.pc.Reclaiming? && ReclaimTick(s, t)
    ensures var n := |s.pc.nodes|;
            t.pc.Lagging? <==> n > MAX_TAGS || (n + 2 > s.g.maxlen && s.ckpt == [])
    ensures t.pc.Checkpointing? ==> |t.ckpt| == |s.ckpt| - 1
    ensures t.pc.Committing? ==> |s.pc.nodes| + 2 <= FreeSpace(s.g.maxlen, s.head, s.tail)
    ensures t.pc.Lagging? || t.pc.Checkpointing? || t.pc.Committing?
  {
    hide PhysOf, JournalInv, ReclaimTick, FreeSpace, SpaceNeeded;
    ShortOfSpace(s);
    ReclaimPc(s, t);
  }

  /** A generation of n blocks can be committed. */
  predicate Commits(g: Geometry, n: nat) {
    n <= MAX_TAGS && n + 2 <= g.maxlen
  }

  /** What commit has checked before it started. */
  lemma CommittingFits(s: Sys)
    requires JournalInv(s) && s.pc.Committing?
    ensures Commits(s.g, |s.pc.nodes|)
  {
    hide PhysOf, JournalInv, Mid, CommitOps, LiveTxns, Body, CommitScript, Shaped;
    CommittingMid(s);
    MidCan(s.disk, LogOf(s), CommittingTxn(s), s.pc.done);
    ShapedPc(s);
    CanCommitParts(LogOf(s), CommittingTxn(s), |s.disk.base|);
  }

  /** The condition under which the loop takes the oldest transaction off the list. */
  predicate MustReclaim(s: Sys)
    requires s.pc.Reclaiming?
  {
    FreeSpace(s.g.maxlen, s.head, s.tail) < SpaceNeeded(|s.pc.nodes|, 0) && s.ckpt != []
  }

  /** The condition under which commit refuses. */
  predicate Refused(s: Sys)
    requires s.pc.Reclaiming?
  {
    var needed := SpaceNeeded(|s.pc.nodes|, 0);
    needed == 0 || needed > FreeSpace(s.g.maxlen, s.head, s.tail)
  }

  lemma ReclaimPops(s: Sys, t: Sys)
    requires s.pc.Reclaiming? && ReclaimTick(s, t) && MustReclaim(s)
    ensures t.pc.Checkpointing? && |t.ckpt| == |s.ckpt| - 1
  {
    hide FreeSpace, SpaceNeeded;
  }

  lemma ReclaimRefuses(s: Sys, t: Sys)
    requires s.pc.Reclaiming? && ReclaimTick(s, t) && !MustReclaim(s) && Refused(s)
    ensures t == GivenUp(s)
  {
    hide FreeSpace, SpaceNeeded, PopOldest;
  }

  lemma ReclaimGoesAhead(s: Sys, t: Sys)
    requires s.pc.Reclaiming? && ReclaimTick(s, t) && !MustReclaim(s) && !Refused(s)
    ensures t.pc.Committing?
  {
    hide FreeSpace, SpaceNeeded, PopOldest;
  }

  lemma ReclaimPc(s: Sys, t: Sys)
    requires s.pc.Reclaiming? && ReclaimTick(s, t)
    ensures if MustReclaim(s) then t.pc.Checkpointing? && |t.ckpt| == |s.ckpt| - 1
            else if Refused(s) then t.pc.Lagging?
            else t.pc.Committing?
  {
    hide ReclaimTick, MustReclaim, Refused;
    if MustReclaim(s) {
      ReclaimPops(s, t);
    } else if Refused(s) {
      ReclaimRefuses(s, t);
    } else {
      ReclaimGoesAhead(s, t);
    }
  }

  lemma ShortOfSpace(s: Sys)
    requires JournalInv(s) && s.pc.Reclaiming?
    ensures var n, free := |s.pc.nodes|, FreeSpace(s.g.maxlen, s.head, s.tail);
            && SpaceNeeded(n, 0) == (if n > MAX_TAGS then 0 else n + 2)
            && 0 <= free <= s.g.maxlen && (s.ckpt == [] ==> free == s.g.maxlen)
  {
    hide PhysOf, JournalInv, Span, Fits;
    SpaceTaken(s);
    ReclaimSpace(s);
  }

  /** In the reclaim loop nothing but the list is in the log. */
  lemma ReclaimSpace(s: Sys)
    requires s.pc.Reclaiming?
    ensures LiveList(s) == s.ckpt && (s.ckpt == [] ==> Span(LiveList(s)) == 0)
  {}

  /** The thread stops only with nothing left to checkpoint. */
  lemma StoppedStep(s: Sys, a: Action, t: Sys)
    requires Step(s, a, t) && (s.pc.Stopped? ==> s.ckpt == [])
    ensures t.pc.Stopped? ==> t.ckpt == []
  {
    hide PhysOf, Shaped, TickStep, View, Older, Seed;
    if a.Tick? {
      StoppedTick(s, a.nodes, t);
    } else if a.Stage? {
      HomeBlock(s.g, |s.disk.base|, a.b);
    }
  }

  lemma StoppedTick(s: Sys, nodes: seq<Node>, t: Sys)
    requires Shaped(s) && TickStep(s, t, nodes)
    ensures t.pc.Stopped? ==> t.ckpt == []
  {
    hide PhysOf, Shaped, ReclaimTick, CommitTick, CheckpointTick, LagTick, DrainTick, Flattens;
    match s.pc
    case Reclaiming(_, _) => ReclaimGoesOn(s, t);
    case Committing(_, _, _) => CommitGoesOn(s, t);
    case Checkpointing(_, _, _) => CheckpointGoesOn(s, t);
    case Lagging => LagGoesOn(s, t);
    case Draining => DrainEnds(s, t);
    case _ =>
  }

  lemma ReclaimGoesOn(s: Sys, t: Sys)
    requires s.pc.Reclaiming? && ReclaimTick(s, t)
    ensures !t.pc.Stopped?
  {
    hide ReclaimTick, PopOldest;
    ReclaimCases(s, t);
    if s.ckpt != [] && t == PopOldest(s, ToReclaim(s.pc.nodes, s.pc.direct)) {
      PopFrame(s, t, ToReclaim(s.pc.nodes, s.pc.direct));
    }
  }

  lemma CommitGoesOn(s: Sys, t: Sys)
    requires Shaped(s) && s.pc.Committing? && CommitTick(s, t)
    ensures !t.pc.Stopped?
  {
    hide PhysOf, CommitScript, Shaped, Published;
    if s.pc.done >= |CommitScript(s)| {
      PublishFrame(s, t);
    }
  }

  lemma CheckpointGoesOn(s: Sys, t: Sys)
    requires Shaped(s) && s.pc.Checkpointing? && CheckpointTick(s, t)
    ensures !t.pc.Stopped?
  {
    hide PhysOf, CheckpointScript, CheckpointTick, Shaped, Resumed;
    CheckpointCases(s, t);
    ResumedGoesOn(s.pc.resume);
  }

  lemma ResumedGoesOn(r: Resume)
    ensures !Resumed(r).Stopped?
  {}

  lemma LagGoesOn(s: Sys, t: Sys)
    requires LagTick(s, t)
    ensures !t.pc.Stopped?
  {
    hide PopOldest;
    if |s.ckpt| > CKPT_LAG {
      PopFrame(s, t, ToLag);
    }
  }

  lemma DrainEnds(s: Sys, t: Sys)
    requires DrainTick(s, t)
    ensures t.pc.Stopped? ==> t.ckpt == []
  {
    hide PopOldest;
    if s.ckpt != [] {
      PopFrame(s, t, ToDrain);
    }
  }

  lemma {:induction false} RunStopped(states: seq<Sys>, actions: seq<Action>, i: nat)
    requires IsRun(states, actions) && Init(states[0]) && i < |states|
    ensures states[i].pc.Stopped? ==> states[i].ckpt == []
  {
    hide PhysOf, Step, Stable, HomeOlder, Shaped;
    if i > 0 {
      var k := i - 1;
      RunStopped(states, actions, k);
      assert Step(states[k], actions[k], states[k + 1]);
      StoppedStep(states[k], actions[k], states[i]);
    }
  }

  /**
   A clean stop leaves an empty journal: whatever happens then, recovery replays nothing and
   every block written only through staging is already at home with its last published copy.
   */
  lemma {:induction false} CleanStop(states: seq<Sys>, actions: seq<Action>, i: nat, img: Image, b: nat)
    requires IsRun(states, actions) && Init(states[0]) && i < |states| && AllShaped(states)
    requires states[i].pc.Stopped? && CrashImage(states[i].disk, img)
    requires StagedOnly(states, actions, i, b) && Settled(states[0].disk, b) && b < |states[0].disk.base|
    ensures |img| == |states[0].disk.base| && Fits(states[0].g, |img|) && RecoveredTxns(img, states[0].g) == []
    ensures img[b] == Overwritten(View(states[0].disk, b), History(states, i), b)
  {
    hide PhysOf, IsRun, Init, Inv, Shaped, Settled, CrashImage, History, StagedOnly, JournalInv, RecoveredTxns;
    hide Replayed;
    hide Logical, HomeOk, LiveBufsIn;
    var s := states[i];
    RunStopped(states, actions, i);
    RunShape(states, actions, i);
    InvParts(s);
    ShapedFits(s);
    ImageSize(s.disk, img);
    StillCrash(s, img);
    NothingLive(s);
    RunLogical(states, actions, i, b);
    LiveShows(s, img, b);
    RecoveredIs(img, s.g, b, []);
  }

  lemma NothingLive(s: Sys)
    requires LiveBufsIn(s) && s.ckpt == [] && !s.pc.Checkpointing?
    ensures LiveTxns(s) == []
  {}
}
