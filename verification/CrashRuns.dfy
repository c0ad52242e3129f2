/** Crashes of the whole pipeline: any state of any run, any subset of unflushed writes. */
module CrashRuns {
  import opened Bytes
  import opened DiskFormat
  import opened Device
  import opened LogFormat
  import opened Replay
  import opened CrashSafety
  import opened CrashOutcome
  import opened Checkpoint
  import opened Pipeline
  import opened PipelineJournal
  import opened PipelineInv
  import opened LogicalDisk

  function CommittingTxn(s: Sys): Txn
    requires Shaped(s) && s.pc.Committing? && s.next < U64
  {
    TxnOf(s.bufs, s.next, s.pc.nodes)
  }

  /** The three things a crash can recover. */
  ghost predicate OnlyLive(s: Sys, img: Image)
    requires Fits(s.g, |img|) && LiveBufsIn(s)
  {
    RecoveredTxns(img, s.g) == LiveTxns(s)
  }

  ghost predicate LiveAndCommitting(s: Sys, img: Image)
    requires Fits(s.g, |img|) && LiveBufsIn(s) && Shaped(s)
  {
    s.pc.Committing? && s.next < U64 && RecoveredTxns(img, s.g) == LiveTxns(s) + [CommittingTxn(s)]
  }

  ghost predicate LiveLessOldest(s: Sys, img: Image)
    requires Fits(s.g, |img|) && LiveBufsIn(s)
  {
    s.pc.Checkpointing? && LiveTxns(s) != [] && RecoveredTxns(img, s.g) == LiveTxns(s)[1..]
  }

  /** The next session starts its log at off. */
  ghost predicate EndsAt(s: Sys, img: Image, off: nat)
    requires Fits(s.g, |img|)
  {
    RecoveredHead(img, s.g) == off < EMPTY
  }

  lemma StillCrash(s: Sys, img: Image)
    requires JournalInv(s) && CrashImage(s.disk, img) && !s.pc.Committing? && !s.pc.Checkpointing?
    ensures Fits(s.g, |img|) && LiveBufsIn(s) && OnlyLive(s, img)
    ensures Fresh(img, s.g, s.next) && (LiveTxns(s) != [] ==> EndsAt(s, img, s.head))
  {
    hide PhysOf, Shaped, Tiles, Span, Stable, RecoveredTxns, RecoveredHead, CrashImage, Fresh;
    JournalParts(s);
    WellFormedParts(LogOf(s), |s.disk.base|);
    ImageSize(s.disk, img);
    StableRecovers(s.disk, LogOf(s), img);
  }

  lemma ImageSize(d: Disk, img: Image)
    requires CrashImage(d, img)
    ensures |img| == |d.base|
  {}

  /** What the invariant says of the disk while a commit is under way. */
  lemma CommittingMid(s: Sys)
    requires JournalInv(s) && s.pc.Committing?
    ensures Shaped(s) && LiveBufsIn(s) && |s.pc.nodes| <= MAX_TAGS && s.next < U64
    ensures Mid(s.disk, LogOf(s), CommittingTxn(s), s.pc.done)
    ensures AllEncodable(LiveTxns(s))
            && CommitScript(s) == CommitOps(s.g, Head(LogOf(s)), LiveTxns(s) == [], CommittingTxn(s))
    ensures Encodable(CommittingTxn(s)) && |Body(CommittingTxn(s))| == |s.pc.nodes| + 1
  {
    hide PhysOf, Shaped, Tiles, Span, Mid, CommitOps, LiveTxns, Body;
    JournalParts(s);
    EmptyLive(s);
    ShapedPc(s);
    var l, t := LogOf(s), CommittingTxn(s);
    MidCan(s.disk, l, t, s.pc.done);
    CanCommitParts(l, t, |s.disk.base|);
  }

  lemma CommittingCrash(s: Sys, img: Image)
    requires JournalInv(s) && CrashImage(s.disk, img) && s.pc.Committing?
    ensures Shaped(s) && Fits(s.g, |img|) && LiveBufsIn(s) && |s.pc.nodes| <= MAX_TAGS && s.next < U64
    ensures OnlyLive(s, img) || LiveAndCommitting(s, img)
    ensures s.pc.done <= |s.pc.nodes| + 2 ==> OnlyLive(s, img)
    ensures s.pc.done >= |CommitScript(s)| ==> LiveAndCommitting(s, img)
    ensures OnlyLive(s, img) && LiveTxns(s) != [] ==> Fresh(img, s.g, s.next) && EndsAt(s, img, s.head)
    ensures LiveAndCommitting(s, img) ==> Fresh(img, s.g, s.next + 1) && EndsAt(s, img, s.head + |s.pc.nodes| + 2)
  {
    hide PhysOf, Shaped, JournalInv, Mid, RecoveredTxns, RecoveredHead, CrashImage, Fresh, CommitOps, LiveTxns;
    hide CommitScript, Body;
    hide WellFormed, EncodeLog;
    CommittingMid(s);
    JournalParts(s);
    ImageSize(s.disk, img);
    MidCan(s.disk, LogOf(s), CommittingTxn(s), s.pc.done);
    CanCommitParts(LogOf(s), CommittingTxn(s), |s.disk.base|);
    CommitAtomic(s.disk, LogOf(s), CommittingTxn(s), s.pc.done, img);
  }

  lemma CheckpointingCrash(s: Sys, img: Image)
    requires JournalInv(s) && CrashImage(s.disk, img) && s.pc.Checkpointing?
    ensures Shaped(s) && Fits(s.g, |img|) && LiveBufsIn(s)
    ensures OnlyLive(s, img) || LiveLessOldest(s, img)
    ensures s.pc.done <= |s.pc.txn.nodes| + 1 ==> OnlyLive(s, img)
    ensures Fresh(img, s.g, s.next) && (RecoveredTxns(img, s.g) != [] ==> EndsAt(s, img, s.head))
  {
    hide PhysOf, Shaped, Tiles, Span, Moving, RecoveredTxns, RecoveredHead, CrashImage, Fresh, OldestOps, GoingHome;
    JournalParts(s);
    GoingIsOldest(s);
    ShapedTxn(s);
    ImageSize(s.disk, img);
    Oldest(s);
    WellFormedParts(LogOf(s), |s.disk.base|);
    CheckpointRecovers(s.disk, LogOf(s), s.pc.done, img);
  }

  // ---- home blocks ----

  lemma {:induction false} RecoveredIs(img: Image, g: Geometry, b: nat, txns: seq<Txn>)
    requires Fits(g, |img|) && b < |img| && RecoveredTxns(img, g) == txns && NoRevokes(txns)
    ensures RecoveredBlock(img, g, b) == if NewestCopy(txns, b).Some? then NewestCopy(txns, b).value else img[b]
  {
    hide PhysOf, RecoveredTxns, Replayed;
    PlainReplay(txns, b);
  }

  lemma {:induction false} SettledImage(d: Disk, img: Image, b: nat)
    requires CrashImage(d, img) && b < |d.base| && Settled(d, b)
    ensures b < |img| && img[b] == View(d, b)
  {
    hide View, May;
    assert May(d, b, img[b]);
  }

  /** With exactly the live transactions recovered, home block b is the logical one. */
  lemma LiveShows(s: Sys, img: Image, b: nat)
    requires JournalInv(s) && CrashImage(s.disk, img) && Shaped(s) && LiveBufsIn(s) && Fits(s.g, |img|)
    requires b < |s.disk.base| && HomeOk(s, b) && OnlyLive(s, img)
    ensures b < |img| && RecoveredBlock(img, s.g, b) == Logical(s, b)
  {
    hide PhysOf, Shaped, JournalInv, RecoveredTxns, CrashImage, View, Settled, LiveTxns, GoingHome, RecoveredBlock;
    ImageSize(s.disk, img);
    PlainLive(s);
    RecoveredIs(img, s.g, b, LiveTxns(s));
    if NewestCopy(LiveTxns(s), b).None? {
      if s.pc.Checkpointing? {
        OldestNewest(s, b);
      } else {
        NothingGoing(s);
      }
      SettledImage(s.disk, img, b);
    }
  }

  lemma PlainLive(s: Sys)
    requires LiveBufsIn(s)
    ensures NoRevokes(LiveTxns(s))
  {}

  lemma NothingGoing(s: Sys)
    requires Shaped(s) && !s.pc.Checkpointing?
    ensures GoingHome(s) == [] && forall b: nat :: LastCopy(GoingHome(s), b).None?
  {
    hide Shaped;
  }

  lemma CommittingShows(s: Sys, img: Image, b: nat)
    requires CrashImage(s.disk, img) && Shaped(s) && LiveBufsIn(s) && Fits(s.g, |img|)
    requires b < |s.disk.base| && HomeOk(s, b) && LiveAndCommitting(s, img)
    ensures b < |img| && RecoveredBlock(img, s.g, b) == LogicalAfter(s, b)
  {
    hide PhysOf, Shaped, JournalInv, RecoveredTxns, CrashImage, View, Settled, LiveTxns, RecoveredBlock;
    ImageSize(s.disk, img);
    PlainLive(s);
    ShapedPc(s);
    var t := CommittingTxn(s);
    RecoveredIs(img, s.g, b, LiveTxns(s) + [t]);
    NewestSnoc(LiveTxns(s), t, b);
    SettledImage(s.disk, img, b);
  }

  /** The oldest transaction may be missing once its copies are home for good. */
  lemma LessOldestShows(s: Sys, img: Image, b: nat)
    requires JournalInv(s) && CrashImage(s.disk, img) && Shaped(s) && LiveBufsIn(s) && Fits(s.g, |img|)
    requires b < |s.disk.base| && HomeOk(s, b) && LiveLessOldest(s, img) && s.pc.done > |s.pc.txn.nodes| + 1
    ensures b < |img| && RecoveredBlock(img, s.g, b) == Logical(s, b)
  {
    hide PhysOf, Shaped, JournalInv, RecoveredTxns, CrashImage, View, Settled, LiveTxns, RecoveredBlock;
    ImageSize(s.disk, img);
    PlainLive(s);
    ShapedTxn(s);
    RecoveredIs(img, s.g, b, LiveTxns(s)[1..]);
    OldestNewest(s, b);
    if NewestCopy(LiveTxns(s)[1..], b).None? {
      SettledImage(s.disk, img, b);
    }
  }

  /** Every home block nobody writes directly is recovered as the logical disk has it. */
  ghost predicate ShowsLogical(s: Sys, img: Image)
    requires Shaped(s) && LiveBufsIn(s) && |img| == |s.disk.base|
  {
    forall b: nat :: b < |img| && HomeOk(s, b) ==> RecoveredBlock(img, s.g, b) == Logical(s, b)
  }

  /** Every such block is recovered as it will be once the commit in progress is published. */
  ghost predicate ShowsAfter(s: Sys, img: Image)
    requires Shaped(s) && LiveBufsIn(s) && |img| == |s.disk.base|
  {
    s.pc.Committing? && forall b: nat :: b < |img| && HomeOk(s, b) ==> RecoveredBlock(img, s.g, b) == LogicalAfter(s, b)
  }

  /**
   A crash of the pipeline in any reachable state recovers the whole logical disk as it was
   before the commit in progress, or the whole of it as it is after; the former until the
   commit block is issued, the latter once the last operation of the commit is.
   */
  lemma CrashShows(s: Sys, img: Image)
    requires JournalInv(s) && CrashImage(s.disk, img)
    ensures Shaped(s) && LiveBufsIn(s) && |img| == |s.disk.base|
    ensures ShowsLogical(s, img) || ShowsAfter(s, img)
    ensures !s.pc.Committing? || s.pc.done <= |s.pc.nodes| + 2 ==> ShowsLogical(s, img)
    ensures s.pc.Committing? ==> |s.pc.nodes| <= MAX_TAGS && s.next < U64
    ensures s.pc.Committing? && s.pc.done >= |CommitScript(s)| ==> ShowsAfter(s, img)
  {
    hide PhysOf, Shaped, JournalInv, RecoveredTxns, CrashImage, LiveTxns, Logical, LogicalAfter, RecoveredBlock, HomeOk;
    hide OnlyLive, LiveAndCommitting, LiveLessOldest, CommitScript;
    JournalParts(s);
    ImageSize(s.disk, img);
    if s.pc.Committing? {
      CommittingCrash(s, img);
    } else if s.pc.Checkpointing? {
      CheckpointingCrash(s, img);
    } else {
      StillCrash(s, img);
    }
    forall b: nat | b < |img| && HomeOk(s, b)
      ensures OnlyLive(s, img) ==> RecoveredBlock(img, s.g, b) == Logical(s, b)
      ensures LiveAndCommitting(s, img) ==> RecoveredBlock(img, s.g, b) == LogicalAfter(s, b)
      ensures !OnlyLive(s, img) && LiveLessOldest(s, img) ==> RecoveredBlock(img, s.g, b) == Logical(s, b)
    {
      if OnlyLive(s, img) {
        LiveShows(s, img, b);
      }
      if LiveAndCommitting(s, img) {
        CommittingShows(s, img, b);
      }
      if !OnlyLive(s, img) && LiveLessOldest(s, img) {
        IsCheckpointing(s, img);
        LessOldestShows(s, img, b);
      }
    }
    if s.pc.Committing? {
      OnlyCommits(s, img);
    }
  }

  lemma IsCheckpointing(s: Sys, img: Image)
    requires Fits(s.g, |img|) && LiveBufsIn(s) && LiveLessOldest(s, img)
    ensures s.pc.Checkpointing?
  {}

  lemma OnlyCommits(s: Sys, img: Image)
    requires Fits(s.g, |img|) && LiveBufsIn(s) && Shaped(s) && s.pc.Committing?
    ensures !LiveLessOldest(s, img)
  {}

  // ---- whole runs ----

  ghost predicate AllShaped(states: seq<Sys>) {
    forall k :: 0 <= k < |states| ==> Shaped(states[k])
  }

  /** The copies of every commit published before state i, in the order of the commits. */
  ghost function History(states: seq<Sys>, i: nat): seq<Copy>
    requires AllShaped(states) && i < |states|
  {
    if i == 0 then []
    else History(states, i - 1)
         + (if states[i].next != states[i - 1].next then CopiesOnTheWay(states[i - 1]) else [])
  }

  /** Block b, first holding v, after the copies have been written over it. */
  function Overwritten(v: Block, copies: seq<Copy>, b: nat): Block {
    if LastCopy(copies, b).Some? then LastCopy(copies, b).value else v
  }

  /** b is a home block that the first i actions write only through staging. */
  ghost predicate StagedOnly(states: seq<Sys>, actions: seq<Action>, i: nat, b: nat)
    requires states != [] && i <= |actions|
  {
    && IsHome(states[0].g, |states[0].disk.base|, b)
    && forall k :: 0 <= k < i ==> NotDirect(actions[k], b)
  }

  ghost predicate NotDirect(a: Action, b: nat) {
    a.WriteDirect? ==> a.b != b
  }

  lemma {:induction false} RunShape(states: seq<Sys>, actions: seq<Action>, i: nat)
    requires IsRun(states, actions) && Init(states[0]) && i < |states|
    ensures Inv(states[i]) && Shaped(states[i])
    ensures states[i].g == states[0].g && |states[i].disk.base| == |states[0].disk.base|
    ensures states[i].ordered == states[0].ordered
  {
    hide PhysOf, Step, Inv, Init, Shaped;
    RunInv(states, actions, i);
    InvParts(states[i]);
    if i > 0 {
      RunShape(states, actions, i - 1);
      var k := i - 1;
      assert Step(states[k], actions[k], states[k + 1]);
      ShapedStep(states[k], actions[k], states[i]);
    }
  }

  lemma InvParts(s: Sys)
    requires Inv(s)
    ensures JournalInv(s) && Shaped(s) && LiveBufsIn(s)
  {
    hide PhysOf, JournalInv, Shaped;
    JournalParts(s);
  }

  lemma RunShapes(states: seq<Sys>, actions: seq<Action>)
    requires IsRun(states, actions) && Init(states[0])
    ensures AllShaped(states)
  {
    hide Shaped, IsRun, Init;
    forall k | 0 <= k < |states| ensures Shaped(states[k]) {
      RunShape(states, actions, k);
    }
  }

  lemma {:induction false} InitHome(s: Sys, b: nat)
    requires Init(s) && Shaped(s) && b < |s.disk.base| && Settled(s.disk, b)
    ensures HomeOk(s, b) && LiveBufsIn(s) && Logical(s, b) == View(s.disk, b)
  {
    hide PhysOf, Stable, View, HomeOlder, Settled, Shaped;
    assert LiveTxns(s) == [];
  }

  /**
   The logical disk is a fold over the published commits: at every state of every run each
   block written only through staging holds its newest published copy, or what it held when
   the session began. No checkpoint shows.
   */
  lemma {:induction false} RunLogical(states: seq<Sys>, actions: seq<Action>, i: nat, b: nat)
    requires IsRun(states, actions) && Init(states[0]) && i < |states| && AllShaped(states)
    requires StagedOnly(states, actions, i, b)
    requires b < |states[0].disk.base| && Settled(states[0].disk, b)
    ensures Inv(states[i]) && LiveBufsIn(states[i]) && b < |states[i].disk.base| && HomeOk(states[i], b)
    ensures Logical(states[i], b) == Overwritten(View(states[0].disk, b), History(states, i), b)
  {
    hide PhysOf, Step, Inv, Init, Shaped, HomeOk, Settled, Logical, LogicalAfter, View, IsHome, LiveBufsIn;
    RunShape(states, actions, i);
    InvParts(states[i]);
    if i == 0 {
      InitHome(states[0], b);
    } else {
      var k := i - 1;
      assert StagedOnly(states, actions, k, b);
      RunLogical(states, actions, k, b);
      RunShape(states, actions, k);
      assert Step(states[k], actions[k], states[k + 1]) && NotDirect(actions[k], b);
      HomeStep(states[k], actions[k], states[i], b);
      LogicalStep(states[k], actions[k], states[i], b);
      OverwrittenMore(states, i, b);
    }
  }

  lemma OverwrittenMore(states: seq<Sys>, i: nat, b: nat)
    requires AllShaped(states) && 0 < i < |states|
    requires LiveBufsIn(states[i - 1]) && b < |states[i - 1].disk.base|
    requires b < |states[0].disk.base|
    requires Logical(states[i - 1], b) == Overwritten(View(states[0].disk, b), History(states, i - 1), b)
    ensures Overwritten(View(states[0].disk, b), History(states, i), b)
         == if states[i].next != states[i - 1].next then LogicalAfter(states[i - 1], b) else Logical(states[i - 1], b)
  {
    hide PhysOf, Inv, Shaped, Logical, View, LiveBufsIn;
    LastCopyConcat(History(states, i - 1), CopiesOnTheWay(states[i - 1]), b);
    assert History(states, i - 1) + [] == History(states, i - 1);
  }

  ghost predicate AllSettled(d: Disk) {
    forall b: nat :: b < |d.base| ==> Settled(d, b)
  }

  /** Every block written only through staging is recovered as the copies leave it. */
  ghost predicate RecoversTo(states: seq<Sys>, actions: seq<Action>, i: nat, img: Image, copies: seq<Copy>)
    requires states != [] && i < |states| == |actions| + 1
    requires Fits(states[0].g, |img|) && |img| == |states[0].disk.base|
  {
    forall b: nat :: b < |img| && StagedOnly(states, actions, i, b)
      ==> RecoveredBlock(img, states[0].g, b) == Overwritten(View(states[0].disk, b), copies, b)
  }

  /**
   Crash consistency of the pipeline: whatever handles and the commit thread have done, and
   whichever unflushed writes are lost, recovery brings back all published commits in order,
   or those and the whole one in progress, over what the session began with.
   */
  lemma {:induction false} RunCrash(states: seq<Sys>, actions: seq<Action>, i: nat, img: Image)
    requires IsRun(states, actions) && Init(states[0]) && i < |states| && AllShaped(states)
    requires AllSettled(states[0].disk) && CrashImage(states[i].disk, img)
    ensures |img| == |states[0].disk.base| && Fits(states[0].g, |img|)
    ensures RecoversTo(states, actions, i, img, History(states, i))
         || (states[i].pc.Committing?
             && RecoversTo(states, actions, i, img, History(states, i) + CopiesOnTheWay(states[i])))
    ensures !states[i].pc.Committing? ==> RecoversTo(states, actions, i, img, History(states, i))
  {
    hide PhysOf, IsRun, Init, Inv, Shaped, HomeOk, Settled, Logical, View, CrashImage, RecoveredBlock, History;
    hide LiveBufsIn;
    hide ShowsLogical, ShowsAfter, StagedOnly, JournalInv, CopiesOnTheWay;
    RunShape(states, actions, i);
    InvParts(states[i]);
    ShapedFits(states[i]);
    ImageSize(states[i].disk, img);
    CrashShows(states[i], img);
    RunSizes(states, actions);
    forall b: nat | b < |img| && StagedOnly(states, actions, i, b)
      ensures ShowsLogical(states[i], img) ==> ShownAs(states, i, img, b, History(states, i))
      ensures ShowsAfter(states[i], img) ==> ShownAs(states, i, img, b, History(states, i) + CopiesOnTheWay(states[i]))
    {
      BlockShown(states, actions, i, img, b);
    }
    if ShowsAfter(states[i], img) {
      AfterCommits(states[i], img);
    }
  }

  ghost predicate ShownAs(states: seq<Sys>, i: nat, img: Image, b: nat, copies: seq<Copy>)
    requires i < |states| && b < |img| && Fits(states[0].g, |img|) && |img| == |states[0].disk.base|
  {
    RecoveredBlock(img, states[0].g, b) == Overwritten(View(states[0].disk, b), copies, b)
  }

  lemma {:induction false} BlockShown(states: seq<Sys>, actions: seq<Action>, i: nat, img: Image, b: nat)
    requires IsRun(states, actions) && Init(states[0]) && i < |states| && AllShaped(states)
    requires |img| == |states[0].disk.base| == |states[i].disk.base| && Fits(states[0].g, |img|)
    requires b < |img| && StagedOnly(states, actions, i, b) && Settled(states[0].disk, b) && LiveBufsIn(states[i])
    ensures ShowsLogical(states[i], img) ==> ShownAs(states, i, img, b, History(states, i))
    ensures ShowsAfter(states[i], img) ==> ShownAs(states, i, img, b, History(states, i) + CopiesOnTheWay(states[i]))
  {
    hide PhysOf, IsRun, Init, Inv, Shaped, HomeOk, Settled, View, RecoveredBlock, History, LiveBufsIn;
    hide ShowsLogical, ShowsAfter, StagedOnly, CopiesOnTheWay, Logical;
    RunShape(states, actions, i);
    RunLogical(states, actions, i, b);
    LastCopyConcat(History(states, i), CopiesOnTheWay(states[i]), b);
    ShownBlock(states[i], img, b);
  }

  lemma RunSizes(states: seq<Sys>, actions: seq<Action>)
    requires IsRun(states, actions)
    ensures |states| == |actions| + 1
  {}

  lemma ShapedFits(s: Sys)
    requires Shaped(s)
    ensures Fits(s.g, |s.disk.base|)
  {
    hide PhysOf;
  }

  lemma AfterCommits(s: Sys, img: Image)
    requires Shaped(s) && LiveBufsIn(s) && |img| == |s.disk.base| && ShowsAfter(s, img)
    ensures s.pc.Committing?
  {
    hide Shaped, HomeOk, RecoveredBlock;
  }

  lemma ShownBlock(s: Sys, img: Image, b: nat)
    requires Shaped(s) && LiveBufsIn(s) && |img| == |s.disk.base| && b < |img| && HomeOk(s, b) && Fits(s.g, |img|)
    ensures ShowsLogical(s, img) ==> RecoveredBlock(img, s.g, b) == Logical(s, b)
    ensures ShowsAfter(s, img) ==> RecoveredBlock(img, s.g, b) == LogicalAfter(s, b)
  {
    hide PhysOf, Shaped, HomeOk, RecoveredBlock, Logical, LogicalAfter;
  }

  // ---- the next session ----

  /** The state a mount builds after recovering img through the branch that replays. */
  function NextSession(img: Image, g: Geometry, ordered: bool): Sys
    requires Fits(g, |img|)
  {
    Sys(g, ordered, Run(Disk(img, []), RecoverOps(img, g)),
        RecoveredHead(img, g), RecoveredHead(img, g), RecoveredNext(img, g),
        [], map[], [], map[], map[], 0, false, false, false, RecoveredNext(img, g), 0, map[], [], Waiting)
  }

  lemma {:induction false} NextSettled(img: Image, g: Geometry, b: nat)
    requires Fits(g, |img|) && b < |img|
    ensures Settled(Run(Disk(img, []), RecoverOps(img, g)), b)
    ensures b != JSUPER ==> View(Run(Disk(img, []), RecoverOps(img, g)), b) == RecoveredBlock(img, g, b)
  {
    hide RecoveredTxns, Replayed, EmptySuper, View, May, PhysOf;
    var all := Replayed(RecoveredTxns(img, g));
    var d0 := Disk(img, []);
    var d1 := Run(d0, InstallOps(all));
    var d2 := Do(d1, Write(JSUPER, EmptySuper(g)));
    assert Do(d2, Flush).log == InstallOps(all) + [Write(JSUPER, EmptySuper(g))] + [Flush];
    assert Run(d0, RecoverOps(img, g)) == Do(d2, Flush);
    FlushSettles(d2, b);
    DoView(d1, Write(JSUPER, EmptySuper(g)), b);
    InstallView(d0, all, b);
    FreshDiskView(img, b);
  }

  lemma SaysEmpty(v: Block, l: Log)
    requires SuperSays(v, l) && l.live == []
    ensures SuperStart(v) == EMPTY
  {
    hide Magic, SuperSequence;
  }

  /** A superblock that does not say empty has something to recover behind it. */
  lemma CommitNotEmpty(d: Disk, l: Log, t: Txn, k: nat, img: Image)
    requires Mid(d, l, t, k) && LayoutAgrees(t) && CrashImage(d, img) && Fits(l.g, |img|)
    requires SuperStart(img[JSUPER]) != EMPTY
    ensures RecoveredTxns(img, l.g) != []
  {
    hide PhysOf, EncodeLog, EncodeTxn, Body, CommitRecord, Fresh, SuperSays, WellFormed, CanCommit, RecoveredTxns, May;
    hide LogHeld, FreshHeld, SuperStart, Older, CommitLogged, LayoutAgrees, SuperBlock;
    CommitAtomic(d, l, t, k, img);
    if l.live == [] {
      assert May(d, JSUPER, img[JSUPER]);
      if SuperSays(img[JSUPER], l) {
        SaysEmpty(img[JSUPER], l);
      } else {
        LoggedRecovers(d, l, t, img);
      }
    }
  }

  lemma CheckpointNotEmpty(d: Disk, l: Log, k: nat, img: Image)
    requires Moving(d, l, k) && CrashImage(d, img) && Fits(l.g, |img|) && SuperStart(img[JSUPER]) != EMPTY
    ensures RecoveredTxns(img, l.g) != []
  {
    hide PhysOf, EncodeLog, Fresh, SuperSays, WellFormed, RecoveredTxns, May, LogHeld, FreshHeld, SuperStart;
    CheckpointRecovers(d, l, k, img);
    assert May(d, JSUPER, img[JSUPER]);
    if l.live[1..] == [] && SuperSays(img[JSUPER], Advanced(l)) {
      SaysEmpty(img[JSUPER], Advanced(l));
    } else if l.live[1..] == [] && k == |l.live[0].copies| + 2 {
      TailUnmoved(d, l, img);
    }
  }

  lemma TailUnmoved(d: Disk, l: Log, img: Image)
    requires WellFormed(l, |d.base|) && l.live != [] && TailIssued(d, l) && CrashImage(d, img)
    requires SuperSays(img[JSUPER], l)
    ensures Fits(l.g, |img|) && RecoveredTxns(img, l.g) == l.live
  {
    hide PhysOf, May, View, SuperSays, EncodeLog, LogAt, Fresh, RecoveredTxns, FreshHeld, WellFormed;
    WellFormedParts(l, |d.base|);
    HeldLogAt(d, l.g, l.tail, l.live, img);
    HeldFresh(d, l.g, l.next, img);
    ImageRecovers(img, l);
  }

  lemma StillNotEmpty(d: Disk, l: Log, img: Image)
    requires Stable(d, l) && CrashImage(d, img) && Fits(l.g, |img|) && SuperStart(img[JSUPER]) != EMPTY
    ensures RecoveredTxns(img, l.g) != []
  {
    hide PhysOf, SuperSays, WellFormed, RecoveredTxns, May, LogHeld, FreshHeld, SuperStart, Fresh;
    StableRecovers(d, l, img);
    assert May(d, JSUPER, img[JSUPER]);
    if l.live == [] {
      SaysEmpty(img[JSUPER], l);
    }
  }

  lemma NotEmpty(s: Sys, img: Image)
    requires JournalInv(s) && CrashImage(s.disk, img) && Fits(s.g, |img|) && SuperStart(img[JSUPER]) != EMPTY
    ensures RecoveredTxns(img, s.g) != []
  {
    hide PhysOf, Shaped, Tiles, Span, Mid, Moving, Stable, RecoveredTxns, CrashImage, SuperStart, CommitOps;
    hide OldestOps, LiveTxns;
    JournalParts(s);
    if s.pc.Committing? {
      CommitNotEmpty(s.disk, LogOf(s), CommittingTxn(s), s.pc.done, img);
    } else if s.pc.Checkpointing? {
      CheckpointNotEmpty(s.disk, LogOf(s), s.pc.done, img);
    } else {
      StillNotEmpty(s.disk, LogOf(s), img);
    }
  }

  lemma {:induction false} TilesLast(list: seq<Committed>, off: nat, number: nat)
    requires Tiles(list, off, number) && list != []
    ensures list[|list| - 1].sequence == number + |list| - 1
    decreases |list|
  {
    if |list| > 1 {
      TilesLast(list[1..], off + |list[0].nodes| + 2, number + 1);
    }
  }

  lemma LastLive(s: Sys)
    requires JournalInv(s) && LiveList(s) != []
    ensures LiveList(s)[|LiveList(s)| - 1].sequence == s.next - 1
  {
    hide PhysOf, Shaped, JournalOk;
    TilesLast(LiveList(s), s.tail, s.next - |LiveList(s)|);
  }

  /** The crash recovers the transactions of list, and place and number of the next one are free. */
  ghost predicate RecoveredAs(s: Sys, img: Image, list: seq<Committed>)
    requires Fits(s.g, |img|)
  {
    && list != [] && AllBufsIn(list, |s.bufs|)
    && RecoveredTxns(img, s.g) == TxnsOf(s.bufs, list)
    && var n := list[|list| - 1].sequence + 1;
       s.next <= n < U64 && Fresh(img, s.g, n) && RecoveredHead(img, s.g) < EMPTY
  }

  lemma NextInRange(s: Sys)
    requires JournalInv(s)
    ensures s.next < U64
  {
    hide Shaped, PhysOf, JournalOk, Tiles;
  }

  lemma LiveRecovered(s: Sys, img: Image)
    requires JournalInv(s) && Fits(s.g, |img|) && LiveBufsIn(s) && OnlyLive(s, img) && RecoveredTxns(img, s.g) != []
    requires Fresh(img, s.g, s.next) && RecoveredHead(img, s.g) < EMPTY
    ensures RecoveredAs(s, img, LiveList(s))
  {
    hide PhysOf, JournalInv, RecoveredTxns, RecoveredHead, Fresh, Shaped, LiveBufsIn, LiveList, CopiesOf;
    LiveListIn(s);
    assert |LiveTxns(s)| == |LiveList(s)|;
    LastLive(s);
    NextInRange(s);
  }

  lemma CommittingRecovered(s: Sys, img: Image)
    requires JournalInv(s) && Shaped(s) && Fits(s.g, |img|) && LiveBufsIn(s) && LiveAndCommitting(s, img)
    requires Fresh(img, s.g, s.next + 1) && RecoveredHead(img, s.g) < EMPTY
    ensures RecoveredAs(s, img, LiveList(s) + [Publishing(s)])
  {
    hide PhysOf, JournalInv, RecoveredTxns, RecoveredHead, Fresh, Shaped;
    CommittingRoom(s);
    LiveListIn(s);
    ShapedPc(s);
    TxnsOfSnoc(s.bufs, LiveList(s), Publishing(s));
  }

  lemma LessOldestRecovered(s: Sys, img: Image)
    requires JournalInv(s) && Fits(s.g, |img|) && LiveBufsIn(s) && LiveLessOldest(s, img)
             && RecoveredTxns(img, s.g) != []
    requires Fresh(img, s.g, s.next) && RecoveredHead(img, s.g) < EMPTY
    ensures LiveList(s) != [] && RecoveredAs(s, img, LiveList(s)[1..])
  {
    hide PhysOf, JournalInv, RecoveredTxns, RecoveredHead, Fresh, Shaped, LiveBufsIn, LiveList, CopiesOf;
    LiveListIn(s);
    assert |LiveTxns(s)| == |LiveList(s)|;
    LastLive(s);
    NextInRange(s);
    assert LiveTxns(s)[1..] == TxnsOf(s.bufs, LiveList(s)[1..]);
  }

  lemma RecoveredIsList(s: Sys, img: Image, list: seq<Committed>)
    requires Fits(s.g, |img|) && RecoveredAs(s, img, list)
    ensures AllBufsIn(list, |s.bufs|) && RecoveredTxns(img, s.g) == TxnsOf(s.bufs, list)
  {
    hide RecoveredTxns, RecoveredHead, Fresh, PhysOf;
  }

  /** The transactions a crash recovers, as the list the pipeline kept of them. */
  lemma RecoveredList(s: Sys, img: Image) returns (list: seq<Committed>)
    requires JournalInv(s) && NodesHome(s) && CrashImage(s.disk, img) && Fits(s.g, |img|)
             && SuperStart(img[JSUPER]) != EMPTY
    ensures RecoveredAs(s, img, list) && TargetsHome(RecoveredTxns(img, s.g), s.g, |img|)
    ensures list == LiveList(s) || (s.pc.Committing? && s.next < U64 && list == LiveList(s) + [Publishing(s)])
         || (LiveList(s) != [] && list == LiveList(s)[1..])
  {
    hide PhysOf, Shaped, JournalInv, RecoveredTxns, CrashImage, SuperStart, Fresh, CommitScript, RecoveredAs;
    hide LiveTxns, RecoveredHead;
    hide LiveBufsIn, LiveList, LiveLessOldest, LiveAndCommitting;
    NotEmpty(s, img);
    if s.pc.Committing? {
      CommittingCrash(s, img);
      if LiveAndCommitting(s, img) {
        CommittingRecovered(s, img);
        list := LiveList(s) + [Publishing(s)];
      } else {
        LiveRecovered(s, img);
        list := LiveList(s);
      }
    } else if s.pc.Checkpointing? {
      CheckpointingCrash(s, img);
      if OnlyLive(s, img) {
        LiveRecovered(s, img);
        list := LiveList(s);
      } else {
        LessOldestRecovered(s, img);
        list := LiveList(s)[1..];
      }
    } else {
      StillCrash(s, img);
      LiveRecovered(s, img);
      list := LiveList(s);
    }
    RecoveredIsList(s, img, list);
    ListTargets(s, list);
    ImageSize(s.disk, img);
  }

  lemma LiveListIn(s: Sys)
    requires LiveBufsIn(s)
    ensures AllBufsIn(LiveList(s), |s.bufs|)
    ensures LiveTxns(s) == TxnsOf(s.bufs, LiveList(s))
  {}

  lemma CommittingRoom(s: Sys)
    requires JournalInv(s) && s.pc.Committing?
    ensures s.next + 1 < U64
  {
    hide PhysOf, Shaped, JournalInv, Mid, CommitOps, LiveTxns, Body, CommitScript;
    CommittingMid(s);
    MidCan(s.disk, LogOf(s), CommittingTxn(s), s.pc.done);
    JournalParts(s);
    CanCommitParts(LogOf(s), CommittingTxn(s), |s.disk.base|);
  }

  lemma {:induction false} ListOlder(bufs: seq<Block>, list: seq<Committed>, b: nat, n: nat)
    requires AllBufsIn(list, |bufs|) && BufsOlder(bufs, n)
    ensures NewestCopy(TxnsOf(bufs, list), b).Some? ==> Older(NewestCopy(TxnsOf(bufs, list), b).value, n)
  {
    hide Older, PhysOf;
    FindIsNewest(bufs, list, b);
    FindCheckpointedFrom(bufs, list, b, n);
  }

  lemma LiveTargets(s: Sys)
    requires JournalInv(s)
    ensures LiveBufsIn(s) && TargetsHome(LiveTxns(s), s.g, |s.disk.base|)
  {
    hide PhysOf, Shaped, Tiles, Span, EncodeLog, Mid, Moving, Stable, LiveTxns;
  }

  lemma ListTargets(s: Sys, list: seq<Committed>)
    requires JournalInv(s) && NodesHome(s) && AllBufsIn(list, |s.bufs|)
    requires list == LiveList(s) || (s.pc.Committing? && s.next < U64 && list == LiveList(s) + [Publishing(s)])
          || (LiveList(s) != [] && list == LiveList(s)[1..])
    ensures TargetsHome(TxnsOf(s.bufs, list), s.g, |s.disk.base|)
  {
    hide PhysOf, Shaped, JournalInv, IsHome, LiveBufsIn, LiveTxns, LiveList;
    LiveTargets(s);
    LiveListIn(s);
    var r, live := TxnsOf(s.bufs, list), LiveTxns(s);
    forall i, k | 0 <= i < |r| && 0 <= k < |r[i].copies| ensures IsHome(s.g, |s.disk.base|, r[i].copies[k].target) {
      if LiveList(s) != [] && list == LiveList(s)[1..] {
        assert live[i + 1].copies[k] == r[i].copies[k];
      } else if i < |live| {
        assert live[i].copies[k] == r[i].copies[k];
      } else {
        assert r[i].copies[k].target == PcNodes(s)[k].blockno;
      }
    }
  }

  lemma NextHomeOlder(s: Sys, img: Image, list: seq<Committed>, n: nat, left: Image)
    requires BufsOlder(s.bufs, s.next) && HomeOlder(s.disk, s.g, s.next) && CrashImage(s.disk, img) && Fits(s.g, |img|)
    requires AllBufsIn(list, |s.bufs|) && RecoveredTxns(img, s.g) == TxnsOf(s.bufs, list)
    requires s.next <= n <= s.next + 1 && RecoversSame(img, left, s.g)
    ensures HomeOlder(Run(Disk(left, []), RecoverOps(left, s.g)), s.g, n)
  {
    hide PhysOf, RecoveredTxns, CrashImage, View, May, Older, RecoverOps, RecoveredBlock, BufsOlder;
    var e := Run(Disk(left, []), RecoverOps(left, s.g));
    ImageSize(s.disk, img);
    forall b: nat | IsHome(s.g, |e.base|, b) ensures BlockOlder(e, b, n) {
      NextSettled(left, s.g, b);
      RecoveredIs(img, s.g, b, TxnsOf(s.bufs, list));
      ListOlder(s.bufs, list, b, s.next);
      ImageMay(s.disk, img, b);
      assert BlockOlder(s.disk, b, s.next);
      OlderLater(View(e, b), s.next);
    }
  }

  lemma {:induction false} ImageMay(d: Disk, img: Image, b: nat)
    requires CrashImage(d, img) && b < |img|
    ensures b < |d.base| && May(d, b, img[b])
  {
    hide May;
  }

  /** The images cannot be told apart by recovery. */
  ghost predicate RecoversSame(img: Image, left: Image, g: Geometry) {
    && SameLog(img, left, g)
    && forall b :: 0 <= b < |img| ==> RecoveredBlock(left, g, b) == RecoveredBlock(img, g, b)
  }

  /** A session begins on the disk that recovery of left leaves, with the blocks that img recovers to. */
  ghost predicate GoesOn(s: Sys, img: Image, left: Image, ordered: bool)
    requires Fits(s.g, |img|) && |left| == |img|
  {
    var t := NextSession(left, s.g, ordered);
    && Init(t) && AllSettled(t.disk)
    && forall b: nat :: IsHome(s.g, |img|, b) ==> View(t.disk, b) == RecoveredBlock(img, s.g, b)
  }

  /** What the state a mount builds needs of the disk to be the beginning of a session. */
  lemma NextInit(img: Image, g: Geometry, ordered: bool)
    requires Fits(g, |img|) && RecoveredNext(img, g) < U64
    requires var d := Run(Disk(img, []), RecoverOps(img, g));
             Stable(d, Log(g, RecoveredHead(img, g), RecoveredNext(img, g), []))
             && HomeOlder(d, g, RecoveredNext(img, g))
    ensures Init(NextSession(img, g, ordered))
  {
    hide PhysOf, Stable, HomeOlder, RecoveredNext, RecoveredHead, RecoverOps;
  }

  lemma FreshSame(a: Image, b: Image, g: Geometry, n: nat)
    requires SameLog(a, b, g) && Fresh(a, g, n)
    ensures Fresh(b, g, n)
  {
    hide IsCommit, Sequence;
  }

  /**
   After any crash of any reachable state, recovery of its image, or of any image that looks
   the same to recovery, through the branch that replays leaves a disk a new session can begin
   with, in which every home block is as it was recovered.
   */
  lemma NextSessionBegins(s: Sys, img: Image, left: Image, ordered: bool)
    requires Inv(s) && CrashImage(s.disk, img) && Fits(s.g, |img|) && SuperStart(img[JSUPER]) != EMPTY
    requires RecoversSame(img, left, s.g)
    ensures GoesOn(s, img, left, ordered)
  {
    hide PhysOf, JournalInv, RecoveredTxns, CrashImage, View, May, SuperStart, RecoverOps, RecoveredHead;
    hide RecoveredBlock;
    hide Fresh, StagingOk, DirectOk, HandlesOk, NodesHome, BufsOlder, HomeOlder, Stable, Settled, Unshared, Init;
    var t := NextSession(left, s.g, ordered);
    ImageSize(s.disk, img);
    var list := RecoveredList(s, img);
    var n := list[|list| - 1].sequence + 1;
    RecoveredSame(img, left, s.g);
    FreshSame(img, left, s.g, n);
    NextNumber(left, s.g, TxnsOf(s.bufs, list));
    NumberBound(s, list);
    RecoveryStable(left, s.g, t.head, n);
    NextHomeOlder(s, img, list, n, left);
    NextInit(left, s.g, ordered);
    forall b: nat | b < |img|
      ensures Settled(t.disk, b)
      ensures b != JSUPER ==> View(t.disk, b) == RecoveredBlock(img, s.g, b)
    {
      NextSettled(left, s.g, b);
    }
  }

  /** Each image but the first was left by a crash in the second pass of recovering the one before it. */
  ghost predicate Interrupted(images: seq<Image>, steps: seq<nat>, g: Geometry) {
    && images != [] && |steps| == |images| - 1
    && (forall i :: 0 <= i < |images| ==> Fits(g, |images[i]|) && |images[i]| == |images[0]|)
    && forall i :: 0 <= i < |steps| ==> CrashedAt(images[i], g, steps[i], images[i + 1])
  }

  lemma {:induction false} InterruptedSame(images: seq<Image>, steps: seq<nat>, g: Geometry)
    requires Interrupted(images, steps, g) && TargetsHome(RecoveredTxns(images[0], g), g, |images[0]|)
    ensures RecoversSame(images[0], images[|images| - 1], g)
    decreases |images|
  {
    hide PhysOf, RecoveredTxns, Replayed, RecoveredBlock, CrashImage, Fits;
    if |images| > 1 {
      assert CrashedAt(images[0], g, steps[0], images[0 + 1]);
      RestartConverges(images[0], g, steps[0], images[1]);
      assert Interrupted(images[1..], steps[1..], g);
      InterruptedSame(images[1..], steps[1..], g);
      SameOnward(images[0], images[1], images[|images| - 1], g);
    }
  }

  lemma SameOnward(a: Image, b: Image, c: Image, g: Geometry)
    requires RecoversSame(a, b, g) && RecoversSame(b, c, g)
    ensures RecoversSame(a, c, g)
  {
    hide RecoveredBlock, PhysOf;
  }

  /**
   And however often recovery itself is interrupted while it installs: the recovery that
   comes through leaves a session that begins with what the first crash would have recovered.
   */
  lemma InterruptedSessionBegins(s: Sys, images: seq<Image>, steps: seq<nat>, ordered: bool)
    requires Inv(s) && Interrupted(images, steps, s.g) && CrashImage(s.disk, images[0])
    requires SuperStart(images[0][JSUPER]) != EMPTY
    ensures GoesOn(s, images[0], images[|images| - 1], ordered)
  {
    hide PhysOf, JournalInv, CrashImage, SuperStart, GoesOn, RecoveredBlock, RecoveredTxns, RecoversSame;
    hide StagingOk, DirectOk, HandlesOk, BufsOlder, HomeOlder, Unshared, CrashedAt, RecoveredAs;
    var list := RecoveredList(s, images[0]);
    ImageSize(s.disk, images[0]);
    InterruptedSame(images, steps, s.g);
    NextSessionBegins(s, images[0], images[|images| - 1], ordered);
  }

  lemma NextNumber(img: Image, g: Geometry, txns: seq<Txn>)
    requires Fits(g, |img|) && SuperStart(img[JSUPER]) != EMPTY && RecoveredTxns(img, g) == txns != []
    ensures RecoveredNext(img, g) == txns[|txns| - 1].sequence + 1
  {
    hide RecoveredTxns, SuperStart;
  }

  lemma NumberBound(s: Sys, list: seq<Committed>)
    requires JournalInv(s) && list != []
    requires list == LiveList(s) || (s.pc.Committing? && s.next < U64 && list == LiveList(s) + [Publishing(s)])
          || (LiveList(s) != [] && list == LiveList(s)[1..])
    ensures list[|list| - 1].sequence <= s.next
  {
    hide PhysOf, JournalInv;
    if LiveList(s) != [] {
      LastLive(s);
    }
  }

  // ---- the first session ----

  function Formatted(img: Image, g: Geometry): Disk
    requires Fits(g, |img|)
  {
    Do(Do(Disk(img, []), Write(JSUPER, EmptySuper(g))), Flush)
  }

  function FirstSession(img: Image, g: Geometry, ordered: bool): Sys
    requires Fits(g, |img|)
  {
    Sys(g, ordered, Formatted(img, g), 0, 0, 1, [], map[], [], map[], map[], 0, false, false, false, 1, 0, map[],
        [], Waiting)
  }

  lemma {:induction false} FormattedHolds(img: Image, g: Geometry, b: nat)
    requires Fits(g, |img|) && b < |img|
    ensures Settled(Formatted(img, g), b)
    ensures View(Formatted(img, g), b) == if b == JSUPER then EmptySuper(g) else img[b]
  {
    hide EmptySuper, View, May, PhysOf;
    var d0 := Disk(img, []);
    FlushSettles(Do(d0, Write(JSUPER, EmptySuper(g))), b);
    DoView(d0, Write(JSUPER, EmptySuper(g)), b);
    FreshDiskView(img, b);
  }

  lemma {:induction false} SettledOlder(d: Disk, b: nat, n: nat)
    requires b < |d.base| && Settled(d, b) && Older(View(d, b), n)
    ensures BlockOlder(d, b, n)
  {
    hide View, May, Older;
  }

  /** On a device without old commit blocks, format leaves a disk a session can begin with. */
  lemma FirstSessionBegins(img: Image, g: Geometry, ordered: bool)
    requires Fits(g, |img|) && forall b :: 0 <= b < |img| ==> !IsCommit(img[b])
    ensures Init(FirstSession(img, g, ordered)) && AllSettled(FirstSession(img, g, ordered).disk)
  {
    hide EmptySuper, View, May, PhysOf, IsCommit, Sequence, Formatted, Settled, Magic, SuperStart, SuperSequence;
    var d := Formatted(img, g);
    assert d.base == img by {
      FormattedBase(img, g);
    }
    forall b: nat | b < |img| ensures Settled(d, b) && (b != JSUPER ==> BlockOlder(d, b, 1)) {
      FormattedHolds(img, g, b);
      if b != JSUPER {
        SettledOlder(d, b, 1);
      }
    }
    EmptySuperReads(g);
    FormattedHolds(img, g, JSUPER);
    SettledSays(d, Log(g, 0, 1, []));
    assert EncodeLog([]) == [];
  }

  lemma FormattedBase(img: Image, g: Geometry)
    requires Fits(g, |img|)
    ensures Formatted(img, g).base == img
  {}

  lemma {:induction false} SettledSays(d: Disk, l: Log)
    requires JSUPER < |d.base| && Settled(d, JSUPER) && SuperSays(View(d, JSUPER), l)
    ensures SuperHeld(d, l)
  {
    hide View, May, SuperSays;
  }
}
