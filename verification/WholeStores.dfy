/**
 From blocks to files: in a run in which every block is staged, none inside the lookup window
 and no generation is given up, a crash recovers the whole store as readers saw it at a moment
 when no handle was live. What whole operations keep, crashes keep.
 */
module WholeStores {
  import opened Bytes
  import opened DiskFormat
  import opened Device
  import opened LogFormat
  import opened Replay
  import opened CrashSafety
  import opened Checkpoint
  import opened Pipeline
  import opened PipelineJournal
  import opened PipelineInv
  import opened LogicalDisk
  import opened CrashRuns
  import opened Generations
  import opened Lookup
  import FS = FileSystem
  import Dir = Directory
  import opened Structures

  /** Up to state i nobody writes a block directly, no generation is given up, and no block is staged in the window. */
  ghost predicate AllPlain(states: seq<Sys>, actions: seq<Action>, i: nat)
    requires i < |states| == |actions| + 1
  {
    forall b: nat :: IsHome(states[0].g, |states[0].disk.base|, b) ==> PlainFor(states, actions, i, b)
  }

  lemma PlainBefore(states: seq<Sys>, actions: seq<Action>, i: nat, j: nat)
    requires j <= i < |states| == |actions| + 1 && AllPlain(states, actions, i)
    ensures AllPlain(states, actions, j)
  {
    hide PlainAt, IsHome;
    forall b: nat | IsHome(states[0].g, |states[0].disk.base|, b) ensures PlainFor(states, actions, j, b) {
      assert PlainFor(states, actions, i, b);
    }
  }

  lemma PlainStaged(states: seq<Sys>, actions: seq<Action>, i: nat, b: nat)
    requires i < |states| == |actions| + 1 && AllPlain(states, actions, i)
    requires IsHome(states[0].g, |states[0].disk.base|, b)
    ensures StagedOnly(states, actions, i, b) && PlainFor(states, actions, i, b)
  {
    hide IsHome, Shaped, Hidden, Drops;
    assert PlainFor(states, actions, i, b);
    forall k | 0 <= k < i ensures NotDirect(actions[k], b) {
      assert PlainAt(states, actions, k, b);
    }
  }

  // ---- one block ----

  /** What the logical disk will be, once what is on its way is published, changes at a snapshot only. */
  lemma AfterStep(s: Sys, a: Action, t: Sys, b: nat)
    requires Inv(s) && Shaped(s) && Step(s, a, t) && !(a.Tick? && s.pc.Freezing?)
    requires IsHome(s.g, |s.disk.base|, b) && b < |s.disk.base| && HomeOk(s, b) && NotDirect(a, b) && !Drops(s, a, t, b)
    ensures LiveBufsIn(s) && Shaped(t) && LiveBufsIn(t) && |t.disk.base| == |s.disk.base|
    ensures LogicalAfter(t, b) == LogicalAfter(s, b)
  {
    hide PhysOf, Inv, Step, TickStep, View, Shaped, HomeOk, LiveTxns, LiveBufsIn, Logical, IsHome, ReclaimTick;
    hide OnTheWay;
    ShapedStep(s, a, t);
    LogicalStep(s, a, t, b);
    if !a.Tick? {
      InvHandles(s);
      HandleSameTaken(s, a, t);
      OnTheWayFrame(s, t);
      HandleFacts(s, a, t);
    } else {
      IsTick(s, a, t);
      TickFrame(s, a.nodes, t);
      TickPasses(s, a.nodes, t);
      AfterTick(s, a.nodes, t, b);
    }
  }

  lemma InvHandles(s: Sys)
    requires Inv(s)
    ensures HandlesOk(s) && StagingOk(s)
  {
    hide PhysOf, JournalInv, HandlesOk, StagingOk;
  }

  lemma AfterTick(s: Sys, nodes: seq<Node>, t: Sys, b: nat)
    requires Inv(s) && Shaped(s) && Step(s, Tick(nodes), t) && !s.pc.Freezing? && !Drops(s, Tick(nodes), t, b)
    requires Passes(s, t) && t.bufs == s.bufs && Shaped(t) && LiveBufsIn(s) && LiveBufsIn(t)
    requires b < |s.disk.base| == |t.disk.base|
    requires if t.next == s.next then Logical(t, b) == Logical(s, b) else Logical(t, b) == LogicalAfter(s, b)
    ensures LogicalAfter(t, b) == LogicalAfter(s, b)
  {
    hide PhysOf, Inv, Step, View, Shaped, LiveTxns, LiveBufsIn, Logical, Passes, OnTheWay, LastCopy, CopiesOf;
    PassesNodes(s, t);
    NoCopy(b);
    PcBufs(s);
    if t.next != s.next {
      NothingOnTheWay(t);
    } else if s.pc.Reclaiming? && t.pc.Lagging? {
      LagsEmpty(t);
      NothingOnTheWay(t);
    } else {
      assert CopiesOnTheWay(t) == CopiesOnTheWay(s);
    }
  }

  lemma LagsEmpty(s: Sys)
    requires s.pc.Lagging?
    ensures PcNodes(s) == []
  {}

  lemma {:induction false} NoCopy(b: nat)
    ensures LastCopy([], b) == None
  {}

  // ---- quiet moments ----

  /** The last snapshot before state q, or the beginning. */
  function LastTaken(states: seq<Sys>, actions: seq<Action>, q: nat): (k: nat)
    requires q < |states| == |actions| + 1
    ensures k <= q
  {
    if q == 0 then 0
    else if actions[q - 1].Tick? && states[q - 1].pc.Freezing? then q - 1
    else LastTaken(states, actions, q - 1)
  }

  /** The last snapshot whose commit is published before state q, or the beginning. */
  function LastPublished(states: seq<Sys>, actions: seq<Action>, q: nat): (k: nat)
    requires q < |states| == |actions| + 1
    ensures k <= q
  {
    if q == 0 then 0
    else if states[q].next != states[q - 1].next then LastTaken(states, actions, q - 1)
    else LastPublished(states, actions, q - 1)
  }

  lemma {:induction false} TakenQuiet(states: seq<Sys>, actions: seq<Action>, q: nat)
    requires IsRun(states, actions) && Init(states[0]) && q < |states| == |actions| + 1
    ensures states[LastTaken(states, actions, q)].handles == map[]
  {
    hide PhysOf, IsRun, Shaped, Stable, HomeOlder, Flattens;
    if q > 0 {
      if actions[q - 1].Tick? && states[q - 1].pc.Freezing? {
        SnapshotIs(states, actions, q - 1);
      } else {
        TakenQuiet(states, actions, q - 1);
      }
    }
  }

  lemma {:induction false} PublishedQuiet(states: seq<Sys>, actions: seq<Action>, q: nat)
    requires IsRun(states, actions) && Init(states[0]) && q < |states| == |actions| + 1
    ensures states[LastPublished(states, actions, q)].handles == map[]
  {
    hide PhysOf, IsRun, Shaped, Stable, HomeOlder;
    if q > 0 {
      if states[q].next != states[q - 1].next {
        TakenQuiet(states, actions, q - 1);
      } else {
        PublishedQuiet(states, actions, q - 1);
      }
    }
  }

  /** Block b in state k is defined, and v is what readers see of it. */
  ghost predicate Shows(states: seq<Sys>, k: nat, b: nat, v: Block) {
    k < |states| && Shaped(states[k]) && LiveBufsIn(states[k]) && b < |states[k].disk.base|
    && Layered(states[k], b) == v
  }

  ghost predicate Plainly(states: seq<Sys>, actions: seq<Action>, q: nat, b: nat) {
    && q < |states| == |actions| + 1 && IsRun(states, actions) && Init(states[0]) && AllShaped(states)
    && AllPlain(states, actions, q) && IsHome(states[0].g, |states[0].disk.base|, b)
    && b < |states[0].disk.base| && Settled(states[0].disk, b)
  }

  lemma Before(states: seq<Sys>, actions: seq<Action>, q: nat, b: nat)
    requires 0 < q < |states| == |actions| + 1 && Plainly(states, actions, q, b)
    ensures Plainly(states, actions, q - 1, b)
    ensures Step(states[q - 1], actions[q - 1], states[q]) && Plain(states[q - 1], actions[q - 1], states[q], b)
  {
    hide PhysOf, Step, Init, Shaped, Settled, IsHome, Plain, PlainFor;
    PlainBefore(states, actions, q, q - 1);
    PlainStaged(states, actions, q, b);
    PlainLast(states, actions, q, b);
    assert Step(states[q - 1], actions[q - 1], states[q - 1 + 1]);
  }

  lemma PlainLast(states: seq<Sys>, actions: seq<Action>, q: nat, b: nat)
    requires 0 < q < |states| == |actions| + 1 && PlainFor(states, actions, q, b)
    ensures Plain(states[q - 1], actions[q - 1], states[q], b)
  {
    hide Plain;
    assert PlainAt(states, actions, q - 1, b);
  }

  lemma Facts(states: seq<Sys>, actions: seq<Action>, q: nat, b: nat)
    requires q < |states| == |actions| + 1 && Plainly(states, actions, q, b)
    ensures Inv(states[q]) && Shaped(states[q]) && LiveBufsIn(states[q]) && b < |states[q].disk.base|
            && HomeOk(states[q], b)
    ensures states[q].g == states[0].g && |states[q].disk.base| == |states[0].disk.base|
  {
    hide PhysOf, IsRun, Init, Inv, Shaped, Settled, IsHome, HomeOk, AllPlain, LiveBufsIn, Logical, History, View;
    hide StagedOnly;
    PlainStaged(states, actions, q, b);
    RunLogical(states, actions, q, b);
    RunShape(states, actions, q);
  }

  /** Once what is on its way is published, the disk is what readers saw at the last snapshot. */
  lemma {:induction false} TakenShows(states: seq<Sys>, actions: seq<Action>, q: nat, b: nat)
    requires q < |states| == |actions| + 1 && Plainly(states, actions, q, b)
    ensures Shaped(states[q]) && LiveBufsIn(states[q]) && b < |states[q].disk.base|
    ensures Shows(states, LastTaken(states, actions, q), b, LogicalAfter(states[q], b))
  {
    hide PhysOf, Step, Init, Inv, Shaped, HomeOk, LiveBufsIn, Logical, View, Plainly, Plain, Layered, LogicalAfter;
    hide IsHome;
    Facts(states, actions, q, b);
    if q == 0 {
      BeginsPlain(states, actions, b);
    } else {
      var p := q - 1;
      Before(states, actions, q, b);
      Facts(states, actions, p, b);
      if actions[p].Tick? && states[p].pc.Freezing? {
        SnapshotShows(states, actions, p, b);
      } else {
        TakenShows(states, actions, p, b);
        PlainParts(states[p], actions[p], states[q], b);
        HomeAgain(states, actions, p, b);
        AfterStep(states[p], actions[p], states[q], b);
      }
    }
  }

  lemma HomeAgain(states: seq<Sys>, actions: seq<Action>, q: nat, b: nat)
    requires q < |states| == |actions| + 1 && Plainly(states, actions, q, b)
    ensures IsHome(states[q].g, |states[q].disk.base|, b)
  {
    hide PhysOf, IsRun, Init, Inv, Shaped, Settled, IsHome, AllPlain;
    RunShape(states, actions, q);
  }

  lemma BeginsPlain(states: seq<Sys>, actions: seq<Action>, b: nat)
    requires Plainly(states, actions, 0, b)
    ensures Shaped(states[0]) && LiveBufsIn(states[0]) && b < |states[0].disk.base|
    ensures Layered(states[0], b) == LogicalAfter(states[0], b) == Logical(states[0], b)
  {
    hide PhysOf, IsRun, Stable, HomeOlder, Shaped, Settled, IsHome, AllPlain, View, Logical;
    InitHome(states[0], b);
    assert CopiesOnTheWay(states[0]) == [];
  }

  lemma SnapshotShows(states: seq<Sys>, actions: seq<Action>, p: nat, b: nat)
    requires |states| == |actions| + 1 && Plainly(states, actions, p, b) && p + 1 < |states| && actions[p].Tick?
             && states[p].pc.Freezing?
    ensures Shaped(states[p + 1]) && LiveBufsIn(states[p + 1]) && b < |states[p + 1].disk.base|
    ensures Shows(states, p, b, LogicalAfter(states[p + 1], b))
  {
    hide PhysOf, IsRun, Init, Inv, Shaped, HomeOk, LiveBufsIn, View, Plainly, IsHome, LogicalAfter, Flattens;
    var s, t := states[p], states[p + 1];
    Facts(states, actions, p, b);
    SnapshotIsHere(states, actions, p, b);
    FreezeDisk(s, t, actions[p].nodes);
    SnapshotLayered(s, t, actions[p].nodes, b);
  }

  lemma SnapshotIsHere(states: seq<Sys>, actions: seq<Action>, p: nat, b: nat)
    requires |states| == |actions| + 1 && Plainly(states, actions, p, b) && p + 1 < |states| && actions[p].Tick?
             && states[p].pc.Freezing?
    ensures FreezeTick(states[p], states[p + 1], actions[p].nodes)
  {
    hide PhysOf, IsRun, Init, Shaped, IsHome, FreezeTick, AllPlain, Settled;
    SnapshotIs(states, actions, p);
  }

  /** The disk as it stands is what readers saw at the last published snapshot. */
  lemma {:induction false} PublishedShows(states: seq<Sys>, actions: seq<Action>, q: nat, b: nat)
    requires q < |states| == |actions| + 1 && Plainly(states, actions, q, b)
    ensures Shaped(states[q]) && LiveBufsIn(states[q]) && b < |states[q].disk.base|
    ensures Shows(states, LastPublished(states, actions, q), b, Logical(states[q], b))
  {
    hide PhysOf, Step, Init, Inv, Shaped, HomeOk, LiveBufsIn, Logical, View, Plainly, Plain, Layered, LogicalAfter;
    hide IsHome;
    Facts(states, actions, q, b);
    if q == 0 {
      BeginsPlain(states, actions, b);
    } else {
      var p := q - 1;
      Before(states, actions, q, b);
      Facts(states, actions, p, b);
      PlainParts(states[p], actions[p], states[q], b);
      HomeAgain(states, actions, p, b);
      LogicalStep(states[p], actions[p], states[q], b);
      if states[q].next != states[p].next {
        TakenShows(states, actions, p, b);
      } else {
        PublishedShows(states, actions, p, b);
      }
    }
  }

  // ---- whole stores ----

  /** The store as readers see it: the blocks outside the journal. */
  ghost function StoreOf(s: Sys): (st: seq<Block>)
    requires Shaped(s) && LiveBufsIn(s)
    ensures |st| == |s.disk.base|
  {
    seq(|s.disk.base|, b requires 0 <= b < |s.disk.base| =>
      if IsHome(s.g, |s.disk.base|, b) then Layered(s, b) else FS.ZEROS)
  }

  /** The store a mount finds after recovery. */
  ghost function RecoveredStore(img: Image, g: Geometry): (st: seq<Block>)
    requires Fits(g, |img|)
    ensures |st| == |img|
  {
    seq(|img|, b requires 0 <= b < |img| => if IsHome(g, |img|, b) then RecoveredBlock(img, g, b) else FS.ZEROS)
  }

  /** What the store is in the states of a run in which no handle is live. */
  ghost predicate QuietStore(states: seq<Sys>, k: nat, st: seq<Block>) {
    k < |states| && states[k].handles == map[] && Shaped(states[k]) && LiveBufsIn(states[k]) && StoreOf(states[k]) == st
  }

  /**
   Every crash of every such run recovers the whole store as readers saw it in one state in
   which no handle was live: none shows part of an operation.
   */
  lemma CrashIsQuiet(states: seq<Sys>, actions: seq<Action>, i: nat, img: Image) returns (k: nat)
    requires IsRun(states, actions) && Init(states[0]) && i < |states| == |actions| + 1
    requires AllSettled(states[0].disk) && AllPlain(states, actions, i) && CrashImage(states[i].disk, img)
    ensures Fits(states[0].g, |img|) && k <= i && QuietStore(states, k, RecoveredStore(img, states[0].g))
  {
    hide PhysOf, IsRun, Init, Inv, Shaped, JournalInv, CrashImage, AllPlain, ShowsLogical, ShowsAfter, StoreOf;
    hide LiveBufsIn;
    hide RecoveredBlock, Settled, Layered, IsHome;
    RunShapes(states, actions);
    RunShape(states, actions, i);
    InvParts(states[i]);
    ShapedFits(states[i]);
    ImageSize(states[i].disk, img);
    CrashShows(states[i], img);
    k := if ShowsLogical(states[i], img) then LastPublished(states, actions, i) else LastTaken(states, actions, i);
    PublishedQuiet(states, actions, i);
    TakenQuiet(states, actions, i);
    RunShape(states, actions, k);
    InvParts(states[k]);
    forall b: nat | b < |img| && IsHome(states[0].g, |img|, b)
      ensures b < |states[k].disk.base| && RecoveredBlock(img, states[0].g, b) == Layered(states[k], b)
    {
      BlockQuiet(states, actions, i, img, b);
    }
    StoreSame(states[k], img, states[0].g);
  }

  lemma {:induction false} BlockQuiet(states: seq<Sys>, actions: seq<Action>, i: nat, img: Image, b: nat)
    requires IsRun(states, actions) && Init(states[0]) && i < |states| == |actions| + 1 && AllShaped(states)
    requires AllSettled(states[0].disk) && AllPlain(states, actions, i) && CrashImage(states[i].disk, img)
    requires |img| == |states[i].disk.base| == |states[0].disk.base| && Fits(states[0].g, |img|)
    requires b < |img| && IsHome(states[0].g, |img|, b) && LiveBufsIn(states[i])
    ensures var v := RecoveredBlock(img, states[0].g, b);
            && (ShowsLogical(states[i], img) ==> Shows(states, LastPublished(states, actions, i), b, v))
            && (ShowsAfter(states[i], img) ==> Shows(states, LastTaken(states, actions, i), b, v))
  {
    hide PhysOf, IsRun, Init, Inv, Shaped, CrashImage, AllPlain, ShowsLogical, ShowsAfter, LiveBufsIn, HomeOk, Shows;
    hide RecoveredBlock, Settled, IsHome, Logical, LogicalAfter;
    Facts(states, actions, i, b);
    ShownBlock(states[i], img, b);
    PublishedShows(states, actions, i, b);
    TakenShows(states, actions, i, b);
  }

  lemma StoreSame(s: Sys, img: Image, g: Geometry)
    requires Shaped(s) && LiveBufsIn(s) && |img| == |s.disk.base| && s.g == g && Fits(g, |img|)
    requires forall b: nat :: b < |img| && IsHome(g, |img|, b) ==> RecoveredBlock(img, g, b) == Layered(s, b)
    ensures StoreOf(s) == RecoveredStore(img, g)
  {
    hide PhysOf, Shaped, LiveBufsIn, RecoveredBlock, Layered, IsHome;
  }

  // ---- what operations keep ----

  /** From state m to state n handles are live, and at both ends none is. */
  ghost predicate Operation(states: seq<Sys>, m: nat, n: nat) {
    && m < n < |states| && states[m].handles == map[] && states[n].handles == map[]
    && forall q :: m < q < n ==> states[q].handles != map[]
  }

  /** Every operation that begins with a sound store ends with one. */
  ghost predicate OperationsKeep(states: seq<Sys>, sound: seq<Block> -> bool)
    requires AllShaped(states) && AllLive(states)
  {
    forall m: nat, n: nat :: Operation(states, m, n) && m + 1 < n && sound(StoreOf(states[m])) ==>
      sound(StoreOf(states[n]))
  }

  ghost predicate AllLive(states: seq<Sys>) {
    forall k :: 0 <= k < |states| ==> LiveBufsIn(states[k])
  }

  lemma RunLive(states: seq<Sys>, actions: seq<Action>)
    requires IsRun(states, actions) && Init(states[0])
    ensures AllShaped(states) && AllLive(states)
  {
    hide PhysOf, IsRun, Init, Inv, Shaped, LiveBufsIn;
    RunShapes(states, actions);
    forall k | 0 <= k < |states| ensures LiveBufsIn(states[k]) {
      RunShape(states, actions, k);
      InvParts(states[k]);
    }
  }

  /** While no handle is live readers see no change. */
  lemma NobodyWrites(states: seq<Sys>, actions: seq<Action>, k: nat, i: nat)
    requires IsRun(states, actions) && Init(states[0]) && k < i < |states| == |actions| + 1
    requires AllShaped(states) && AllLive(states) && AllSettled(states[0].disk) && AllPlain(states, actions, i)
    requires states[k].handles == map[]
    ensures StoreOf(states[k + 1]) == StoreOf(states[k])
  {
    hide PhysOf, IsRun, Init, Inv, Shaped, AllPlain, LiveBufsIn, HomeOk, Layered, IsHome, Step, View, Settled, Hidden;
    PlainBefore(states, actions, i, k + 1);
    RunShape(states, actions, k);
    RunShape(states, actions, k + 1);
    StepHere(states, actions, k);
    NoFill(states[k], actions[k], states[k + 1]);
    forall b: nat | b < |states[0].disk.base| && IsHome(states[0].g, |states[0].disk.base|, b)
      ensures Layered(states[k + 1], b) == Layered(states[k], b)
    {
      assert Plainly(states, actions, k + 1, b);
      SameReading(states, actions, k, b);
    }
  }

  lemma StepHere(states: seq<Sys>, actions: seq<Action>, k: nat)
    requires IsRun(states, actions) && k < |actions|
    ensures |states| == |actions| + 1 && Step(states[k], actions[k], states[k + 1])
  {
    hide Step;
  }

  lemma NoFill(s: Sys, a: Action, t: Sys)
    requires Step(s, a, t) && s.handles == map[]
    ensures !a.Fill? && !a.Stage?
  {
    hide PhysOf, Shaped, View, Seed, Older, IsHome, TickStep;
  }

  lemma SameReading(states: seq<Sys>, actions: seq<Action>, k: nat, b: nat)
    requires k + 1 < |states| == |actions| + 1 && Plainly(states, actions, k + 1, b)
    requires !actions[k].Fill? && Shaped(states[k]) && LiveBufsIn(states[k]) && b < |states[k].disk.base|
    requires Shaped(states[k + 1]) && LiveBufsIn(states[k + 1]) && b < |states[k + 1].disk.base|
    ensures Layered(states[k + 1], b) == Layered(states[k], b)
  {
    hide PhysOf, Inv, Shaped, LiveBufsIn, HomeOk, Layered, IsHome, Step, View, Plainly, Plain;
    Before(states, actions, k + 1, b);
    Facts(states, actions, k, b);
    HomeAgain(states, actions, k, b);
    PlainParts(states[k], actions[k], states[k + 1], b);
    LayeredStep(states[k], actions[k], states[k + 1], b);
  }

  /** The last quiet state before k. */
  lemma {:induction false} QuietBefore(states: seq<Sys>, k: nat, q: nat) returns (m: nat)
    requires 0 < q <= k < |states| && states[0].handles == map[]
    requires forall x :: q <= x < k ==> states[x].handles != map[]
    ensures m < k && states[m].handles == map[] && forall x :: m < x < k ==> states[x].handles != map[]
    decreases q
  {
    m := q - 1;
    if states[m].handles != map[] {
      m := QuietBefore(states, k, q - 1);
    }
  }

  lemma {:induction false} QuietSound(states: seq<Sys>, actions: seq<Action>, i: nat, k: nat, sound: seq<Block> -> bool)
    requires IsRun(states, actions) && Init(states[0]) && k <= i < |states| == |actions| + 1
    requires AllShaped(states) && AllLive(states) && AllSettled(states[0].disk) && AllPlain(states, actions, i)
    requires OperationsKeep(states, sound) && sound(StoreOf(states[0])) && states[k].handles == map[]
    ensures sound(StoreOf(states[k]))
    decreases k
  {
    hide PhysOf, IsRun, Shaped, AllPlain, AllSettled, StoreOf, LiveBufsIn, Stable, HomeOlder;
    if k > 0 {
      var m := QuietBefore(states, k, k);
      QuietSound(states, actions, i, m, sound);
      if m + 1 == k {
        NobodyWrites(states, actions, m, i);
      } else {
        assert Operation(states, m, k);
      }
    }
  }

  /**
   What every operation keeps, every crash keeps: if the store is sound when the session begins
   and after each operation that began with it sound, it is sound after every crash and recovery.
   */
  lemma StoresSurvive(states: seq<Sys>, actions: seq<Action>, i: nat, img: Image, sound: seq<Block> -> bool)
    requires IsRun(states, actions) && Init(states[0]) && i < |states| == |actions| + 1
    requires AllShaped(states) && AllLive(states) && AllSettled(states[0].disk) && AllPlain(states, actions, i)
    requires OperationsKeep(states, sound) && sound(StoreOf(states[0])) && CrashImage(states[i].disk, img)
    ensures Fits(states[0].g, |img|) && sound(RecoveredStore(img, states[0].g))
  {
    hide PhysOf, IsRun, Init, Shaped, AllPlain, AllSettled, StoreOf, LiveBufsIn, CrashImage, OperationsKeep;
    hide RecoveredStore;
    var k := CrashIsQuiet(states, actions, i, img);
    QuietSound(states, actions, i, k, sound);
  }

  // ---- files and directories ----

  /** Every block belongs to one file at most and is marked, and every directory is well kept. */
  ghost predicate SoundFor(l: FS.Layout, st: FS.Store, live: set<nat>) {
    && FS.Owned(l, st, live)
    && forall ino :: ino in live && IsDir(FS.InodeAt(l, st, ino)) ==> WellKept(l, st, ino)
  }

  ghost predicate WellKept(l: FS.Layout, st: FS.Store, ino: nat)
    requires FS.Fitting(l, st) && FS.IsInode(l, ino)
  {
    exists n: nat :: Dir.DirOk(st, FS.InodeAt(l, st, ino), n)
  }

  ghost predicate SoundFiles(l: FS.Layout, st: FS.Store) {
    exists live :: SoundFor(l, st, live)
  }

  /** What WriteAt, Truncate, Add and Remove ensure of the store: one inode changes, and stays in order itself. */
  ghost predicate OneFile(l: FS.Layout, st: FS.Store, after: FS.Store, ino: nat) {
    && FS.Fitting(l, st) && FS.Fitting(l, after) && FS.IsInode(l, ino)
    && var i := FS.InodeAt(l, after, ino);
       && FS.OneInode(l, st, after, ino, i.blocks) && FS.BlocksOk(l, after, i.blocks) && i.size <= FS.CAP
       && (IsDir(i) ==> WellKept(l, after, ino))
  }

  /** Such an operation keeps ownership and every directory, its own and the others. */
  lemma OneFileSound(l: FS.Layout, st: FS.Store, after: FS.Store, live: set<nat>, ino: nat)
    requires SoundFor(l, st, live) && ino in live && OneFile(l, st, after, ino)
    ensures SoundFor(l, after, live)
  {
    hide FS.InodeAt, FS.OneInode, FS.Owned, Dir.DirOk, FS.Marked;
    FS.OwnedUpdate(l, st, after, live, ino);
    LiveInodes(l, st, live);
    forall jno | jno in live && IsDir(FS.InodeAt(l, after, jno)) ensures WellKept(l, after, jno) {
      if jno != ino {
        OtherKept(l, st, after, live, ino, jno);
      }
    }
  }

  lemma LiveInodes(l: FS.Layout, st: FS.Store, live: set<nat>)
    requires FS.Owned(l, st, live)
    ensures FS.Fitting(l, st) && forall ino :: ino in live ==> FS.IsInode(l, ino)
  {
    hide FS.InodeAt, FS.Marked;
  }

  lemma OtherKept(l: FS.Layout, st: FS.Store, after: FS.Store, live: set<nat>, ino: nat, jno: nat)
    requires SoundFor(l, st, live) && FS.Owned(l, after, live) && ino in live && jno in live && jno != ino
    requires OneFile(l, st, after, ino) && IsDir(FS.InodeAt(l, after, jno))
    ensures WellKept(l, after, jno)
  {
    hide FS.InodeAt, FS.Marked, Dir.SlotsOk, FS.Owned;
    LiveInodes(l, st, live);
    OtherInode(l, st, after, ino, jno);
    var n: nat :| Dir.DirOk(st, FS.InodeAt(l, st, jno), n);
    Dir.OthersKeepGraph(l, st, after, live, ino, jno);
    assert Dir.DirOk(after, FS.InodeAt(l, after, jno), n);
  }

  lemma OtherInode(l: FS.Layout, st: FS.Store, after: FS.Store, ino: nat, jno: nat)
    requires OneFile(l, st, after, ino) && FS.IsInode(l, jno) && jno != ino
    ensures FS.InodeAt(l, after, jno) == FS.InodeAt(l, st, jno)
  {
    hide FS.InodeAt, FS.Marked;
  }

  /**
   File operations as handles, data journalled: if each operation leaves ownership and the
   directories as the operations of FileSystem and Directory do, every crash at any step of any
   interleaving with the thread recovers a store in which both hold.
   */
  lemma FilesSurvive(states: seq<Sys>, actions: seq<Action>, i: nat, img: Image, l: FS.Layout)
    requires IsRun(states, actions) && Init(states[0]) && i < |states| == |actions| + 1
    requires AllShaped(states) && AllLive(states) && AllSettled(states[0].disk) && AllPlain(states, actions, i)
    requires forall m: nat, n: nat :: Operation(states, m, n) && m + 1 < n && SoundFiles(l, StoreOf(states[m]))
               ==> SoundFiles(l, StoreOf(states[n]))
    requires SoundFiles(l, StoreOf(states[0])) && CrashImage(states[i].disk, img)
    ensures Fits(states[0].g, |img|) && SoundFiles(l, RecoveredStore(img, states[0].g))
  {
    hide PhysOf, IsRun, Init, Shaped, AllPlain, AllSettled, StoreOf, LiveBufsIn, CrashImage, RecoveredStore, SoundFiles;
    hide Operation;
    StoresSurvive(states, actions, i, img, (st: seq<Block>) => SoundFiles(l, st));
  }

  /** From state m to state n the store of the readers changes as by an operation on one of the files. */
  ghost predicate IsFileOperation(states: seq<Sys>, l: FS.Layout, live: set<nat>, m: nat, n: nat)
    requires AllShaped(states) && AllLive(states) && m < |states| && n < |states|
  {
    StoreOf(states[n]) == StoreOf(states[m])
    || exists ino :: ino in live && OneFile(l, StoreOf(states[m]), StoreOf(states[n]), ino)
  }

  /** In particular if each operation reads or writes, cuts, or changes the directory of one of the live inodes. */
  lemma FileOperationsSurvive(states: seq<Sys>, actions: seq<Action>, i: nat, img: Image, l: FS.Layout, live: set<nat>)
    requires IsRun(states, actions) && Init(states[0]) && i < |states| == |actions| + 1
    requires AllShaped(states) && AllLive(states) && AllSettled(states[0].disk) && AllPlain(states, actions, i)
    requires forall m: nat, n: nat :: Operation(states, m, n) && m + 1 < n ==> IsFileOperation(states, l, live, m, n)
    requires SoundFor(l, StoreOf(states[0]), live) && CrashImage(states[i].disk, img)
    ensures Fits(states[0].g, |img|) && SoundFor(l, RecoveredStore(img, states[0].g), live)
  {
    hide PhysOf, IsRun, Init, Shaped, AllPlain, AllSettled, StoreOf, LiveBufsIn, CrashImage, RecoveredStore;
    hide SoundFor, OneFile;
    var sound := (st: seq<Block>) => SoundFor(l, st, live);
    forall m: nat, n: nat | Operation(states, m, n) && m + 1 < n && sound(StoreOf(states[m]))
      ensures sound(StoreOf(states[n]))
    {
      assert IsFileOperation(states, l, live, m, n);
      if StoreOf(states[n]) != StoreOf(states[m]) {
        var ino :| ino in live && OneFile(l, StoreOf(states[m]), StoreOf(states[n]), ino);
        OneFileSound(l, StoreOf(states[m]), StoreOf(states[n]), live, ino);
      }
    }
    StoresSurvive(states, actions, i, img, sound);
  }
}
