/**
 What a sync waits for. A call takes the running number as its target and may return once
 that number is completed, which is not always the number its own changes will get.
 */
module Syncs {
  import opened Bytes
  import opened DiskFormat
  import opened Device
  import opened LogFormat
  import opened Replay
  import opened CrashSafety
  import opened Checkpoint
  import opened Pipeline
  import opened PipelineJournal
  import opened PipelineInv
  import opened LogicalDisk
  import opened CrashRuns
  import opened Generations
  import opened Reclaim
  import opened Lookup
  import opened LostUpdate

  /** A generation is between its snapshot and its completion. */
  predicate InFlight(pc: Pc) {
    pc.Forcing? || pc.Reclaiming? || pc.Committing? || (pc.Checkpointing? && pc.resume.ToReclaim?)
  }

  // ---- the counters under a step ----

  predicate SameCounters(s: Sys, t: Sys) {
    t.completed == s.completed && t.running == s.running && t.next == s.next
  }

  /** The step neither begins nor ends a turn of the thread. */
  ghost predicate Steady(s: Sys, t: Sys) {
    SameCounters(s, t) && t.gen == s.gen && InFlight(t.pc) == InFlight(s.pc) && PcNodes(t) == PcNodes(s)
  }

  ghost predicate Snaps(s: Sys, a: Action, t: Sys) {
    && a.Tick? && s.pc.Freezing? && FreezeTick(s, t, a.nodes)
    && SameCounters(s, t) && t.gen == s.gen + 1 && InFlight(t.pc) && PcNodes(t) == a.nodes
  }

  /** The turn ends, with a commit unless the generation was empty or does not fit. */
  ghost predicate Finishes(s: Sys, t: Sys) {
    && InFlight(s.pc) && !InFlight(t.pc) && t.gen == s.gen && t.shutdown == s.shutdown
    && t.completed == s.running && t.next >= s.next && t.running == t.next
    && (if t.next != s.next then Commits(s.g, |PcNodes(s)|)
        else PcNodes(s) == [] || !Commits(s.g, |PcNodes(s)|))
  }

  lemma PopSteady(s: Sys, t: Sys, resume: Resume)
    requires s.ckpt != [] && t == PopOldest(s, resume) && InFlight(s.pc) == resume.ToReclaim?
    requires PcNodes(s) == if resume.ToReclaim? then resume.nodes else []
    ensures Steady(s, t)
  {}

  lemma ReclaimTurn(s: Sys, t: Sys)
    requires JournalInv(s) && s.running == s.next && s.pc.Reclaiming? && ReclaimTick(s, t)
    ensures Steady(s, t) || Finishes(s, t)
  {
    hide PhysOf, JournalInv, ReclaimTick, PopOldest, Steady, FreeSpace, SpaceNeeded, GoesAhead;
    ReclaimCases(s, t);
    if s.ckpt != [] && t == PopOldest(s, ToReclaim(s.pc.nodes, s.pc.direct)) {
      PopSteady(s, t, ToReclaim(s.pc.nodes, s.pc.direct));
    } else if t == GivenUp(s) {
      ReclaimOutcome(s, t);
    } else {
      AheadSteady(s, t);
    }
  }

  lemma AheadSteady(s: Sys, t: Sys)
    requires s.pc.Reclaiming? && t == s.(pc := Committing(s.pc.nodes, s.pc.direct, 0))
    ensures Steady(s, t)
  {}

  lemma PublishFinishes(s: Sys, t: Sys)
    requires s.pc.Committing? && s.next < U64 && t == Published(s) && Commits(s.g, |s.pc.nodes|)
    ensures Finishes(s, t) && t.next == s.next + 1
  {}

  lemma CommitTurn(s: Sys, t: Sys)
    requires JournalInv(s) && Shaped(s) && s.pc.Committing? && CommitTick(s, t)
    ensures Steady(s, t) || Finishes(s, t)
  {
    hide PhysOf, JournalInv, CommitScript, Shaped, Published;
    CommittingFits(s);
    if s.pc.done >= |CommitScript(s)| {
      PublishFinishes(s, t);
    }
  }

  lemma CheckpointTurn(s: Sys, t: Sys)
    requires Shaped(s) && s.pc.Checkpointing? && CheckpointTick(s, t)
    ensures Steady(s, t)
  {
    hide PhysOf, CheckpointScript, CheckpointTick, Shaped, NewTail;
    CheckpointCases(s, t);
  }

  lemma LagTurn(s: Sys, t: Sys)
    requires s.pc.Lagging? && LagTick(s, t)
    ensures Steady(s, t)
  {
    hide PopOldest, Steady;
    if |s.ckpt| > CKPT_LAG {
      PopSteady(s, t, ToLag);
    } else {
      IdleSteady(s, t);
    }
  }

  lemma DrainTurn(s: Sys, t: Sys)
    requires s.pc.Draining? && DrainTick(s, t)
    ensures Steady(s, t)
  {
    hide PopOldest, Steady;
    if s.ckpt != [] {
      PopSteady(s, t, ToDrain);
    } else {
      IdleSteady(s, t);
    }
  }

  lemma IdleSteady(s: Sys, t: Sys)
    requires t == s.(pc := t.pc, freezing := t.freezing) && !InFlight(s.pc) && !InFlight(t.pc)
    requires PcNodes(s) == [] == PcNodes(t)
    ensures Steady(s, t)
  {}

  lemma WaitTurn(s: Sys, t: Sys)
    requires s.pc.Waiting? && WaitTick(s, t)
    ensures Steady(s, t)
  {}

  lemma ForceTurn(s: Sys, t: Sys)
    requires s.running == s.next && s.pc.Forcing? && ForceTick(s, t)
    ensures Steady(s, t) || Finishes(s, t)
  {}

  /** Every step of the thread goes on with a turn, begins one with a snapshot, or ends one. */
  lemma TickTurn(s: Sys, nodes: seq<Node>, t: Sys)
    requires JournalInv(s) && s.running == s.next && Shaped(s) && TickStep(s, t, nodes)
    ensures Steady(s, t) || Snaps(s, Tick(nodes), t) || Finishes(s, t)
  {
    hide PhysOf, JournalInv, Shaped, WaitTick, ForceTick, ReclaimTick, CommitTick, CheckpointTick, LagTick, DrainTick;
    hide Steady, Finishes, Flattens;
    match s.pc
    case Waiting => WaitTurn(s, t);
    case Freezing =>
    case Forcing(_, _) => ForceTurn(s, t);
    case Reclaiming(_, _) => ReclaimTurn(s, t);
    case Committing(_, _, _) => CommitTurn(s, t);
    case Checkpointing(_, _, _) => CheckpointTurn(s, t);
    case Lagging => LagTurn(s, t);
    case Draining => DrainTurn(s, t);
    case Stopped =>
  }

  lemma HandleTurn(s: Sys, a: Action, t: Sys)
    requires Step(s, a, t) && !a.Tick?
    ensures Steady(s, t)
  {
    hide PhysOf, Shaped, View, Seed, Older, IsHome;
    if a.Stage? {
      HomeBlock(s.g, |s.disk.base|, a.b);
    }
  }

  lemma TurnStep(s: Sys, a: Action, t: Sys)
    requires JournalInv(s) && s.running == s.next && Step(s, a, t)
    ensures Steady(s, t) || Snaps(s, a, t) || Finishes(s, t)
  {
    hide PhysOf, JournalInv, Step, TickStep, Shaped, Steady, Snaps, Finishes;
    if a.Tick? {
      IsTick(s, a, t);
      TickTurn(s, a.nodes, t);
    } else {
      HandleTurn(s, a, t);
    }
  }

  /** Numbers in a run: the running one is the next one, and none beyond it is completed. */
  lemma {:induction false} NumbersAt(states: seq<Sys>, actions: seq<Action>, i: nat)
    requires IsRun(states, actions) && Init(states[0]) && i < |states|
    ensures states[i].running == states[i].next && states[i].completed <= states[i].running
  {
    hide PhysOf, Step, Inv, FreezeTick, Shaped, Stable, HomeOlder;
    if i > 0 {
      var k := i - 1;
      NumbersAt(states, actions, k);
      TurnAt(states, actions, k);
    }
  }

  lemma TurnAt(states: seq<Sys>, actions: seq<Action>, k: nat)
    requires IsRun(states, actions) && Init(states[0]) && k < |actions| && states[k].running == states[k].next
    ensures |states| == |actions| + 1
    ensures Steady(states[k], states[k + 1]) || Snaps(states[k], actions[k], states[k + 1])
         || Finishes(states[k], states[k + 1])
  {
    hide PhysOf, Step, Inv, Init, Steady, Snaps, Finishes;
    RunShape(states, actions, k);
    InvParts(states[k]);
    assert Step(states[k], actions[k], states[k + 1]);
    TurnStep(states[k], actions[k], states[k + 1]);
  }

  // ---- what a sync waits for ----

  /** In state q the sync called in state i may return. */
  predicate ReleasedAt(states: seq<Sys>, i: nat, q: nat) {
    i < |states| && q < |states| && (states[i].running <= states[q].completed || states[q].shutdown)
  }

  /** State r is the first in which it may. */
  ghost predicate Released(states: seq<Sys>, i: nat, r: nat) {
    i < r && ReleasedAt(states, i, r) && forall q :: i < q < r ==> !ReleasedAt(states, i, q)
  }

  /** The snapshot that ends generation g, if it is taken between i and r, fits the log. */
  ghost predicate GenerationFits(states: seq<Sys>, actions: seq<Action>, i: nat, r: nat, g: nat)
    requires |states| == |actions| + 1
  {
    forall k :: i < k < r && Snapshot(states, actions, k) && states[k].gen == g
      ==> Commits(states[k].g, |actions[k].nodes|)
  }

  /**
   The sync is of use: when it is called no generation is in flight and the running number is
   not completed; the generation fits; and the thread is not shut down before it is done.
   */
  ghost predicate Useful(states: seq<Sys>, actions: seq<Action>, i: nat, r: nat)
    requires |states| == |actions| + 1 && i < r < |states|
  {
    && !InFlight(states[i].pc) && states[i].completed < states[i].running
    && !states[r].shutdown && GenerationFits(states, actions, i, r, states[i].gen)
  }

  /** Neither counter has moved, and the generation in flight is the one of the call or an older one. */
  ghost predicate StillWaits(states: seq<Sys>, actions: seq<Action>, i: nat, q: nat)
    requires |states| == |actions| + 1 && i <= q < |states|
  {
    && states[q].running == states[i].running && states[q].next == states[i].next
    && states[q].completed < states[i].running
    && (if states[q].gen == states[i].gen then InFlight(states[q].pc) == InFlight(states[i].pc)
        else !InFlight(states[i].pc) && states[q].gen == states[i].gen + 1 && InFlight(states[q].pc)
             && exists k :: i < k < q && TakenAt(states, actions, k, states[i].gen, PcNodes(states[q])))
  }

  /** Step k takes the snapshot that ends generation g, and it is these nodes. */
  ghost predicate TakenAt(states: seq<Sys>, actions: seq<Action>, k: nat, g: nat, nodes: seq<Node>)
    requires |states| == |actions| + 1
  {
    Snapshot(states, actions, k) && states[k].gen == g && actions[k].nodes == nodes && nodes != []
  }

  lemma SnapsNonempty(s: Sys, a: Action, t: Sys)
    requires Snaps(s, a, t) && s.staged != map[]
    ensures a.nodes != []
  {
    hide PhysOf;
    var b :| b in s.staged;
  }

  lemma SteadyWaits(states: seq<Sys>, actions: seq<Action>, i: nat, q: nat)
    requires |states| == |actions| + 1 && i <= q < |actions| && StillWaits(states, actions, i, q)
    requires Steady(states[q], states[q + 1])
    ensures StillWaits(states, actions, i, q + 1)
  {
    hide OnTheWay, TakenAt;
    if states[q].gen != states[i].gen {
      var k :| i < k < q && TakenAt(states, actions, k, states[i].gen, PcNodes(states[q]));
      assert i < k < q + 1 && TakenAt(states, actions, k, states[i].gen, PcNodes(states[q + 1]));
    }
  }

  lemma SnapWaits(states: seq<Sys>, actions: seq<Action>, i: nat, q: nat)
    requires |states| == |actions| + 1 && i < q < |actions| && StillWaits(states, actions, i, q)
    requires Snaps(states[q], actions[q], states[q + 1]) && states[q].staged != map[]
    requires states[q].gen == states[i].gen
    ensures StillWaits(states, actions, i, q + 1)
  {
    hide FreezeTick;
    SnapsNonempty(states[q], actions[q], states[q + 1]);
    assert TakenAt(states, actions, q, states[i].gen, PcNodes(states[q + 1]));
  }

  lemma StillStaged(states: seq<Sys>, actions: seq<Action>, i: nat, q: nat, b: u64)
    requires IsRun(states, actions) && Init(states[0]) && i < q < |states| && actions[i].Sync? && b in states[i].staged
    requires states[q].gen == states[i].gen
    ensures states[q].staged != map[]
  {
    hide PhysOf, IsRun, Init;
    StagedWhile(states, actions, i, q, b);
  }

  /** As long as the sync has to wait, its target is not completed, and its generation not committed. */
  lemma {:induction false} WhileWaiting(states: seq<Sys>, actions: seq<Action>, i: nat, q: nat, b: u64)
    requires IsRun(states, actions) && Init(states[0]) && |states| == |actions| + 1 && i < q < |states|
    requires actions[i].Sync? && b in states[i].staged
    requires forall x :: i < x <= q ==> !ReleasedAt(states, i, x)
    ensures StillWaits(states, actions, i, q)
    decreases q
  {
    hide PhysOf, IsRun, Init, Steady, Snaps, Finishes, StillWaits;
    var p := q - 1;
    NumbersAt(states, actions, p);
    TurnAt(states, actions, p);
    if p == i {
      CallSteady(states, actions, i);
    } else {
      WhileWaiting(states, actions, i, p, b);
      if Steady(states[p], states[q]) {
        SteadyWaits(states, actions, i, p);
      } else if Snaps(states[p], actions[p], states[q]) {
        NotTwice(states, actions, i, p);
        StillStaged(states, actions, i, p, b);
        SnapWaits(states, actions, i, p);
      } else {
        EndReleases(states, actions, i, p);
      }
    }
  }

  lemma CallSteady(states: seq<Sys>, actions: seq<Action>, i: nat)
    requires IsRun(states, actions) && |states| == |actions| + 1 && i < |actions| && actions[i].Sync?
    requires !ReleasedAt(states, i, i + 1) && states[i].running == states[i].next
    ensures StillWaits(states, actions, i, i + 1)
  {
    hide PhysOf, Shaped;
    assert Step(states[i], actions[i], states[i + 1]);
  }

  lemma NotTwice(states: seq<Sys>, actions: seq<Action>, i: nat, p: nat)
    requires |states| == |actions| + 1 && i <= p < |actions| && StillWaits(states, actions, i, p)
    requires Snaps(states[p], actions[p], states[p + 1])
    ensures states[p].gen == states[i].gen
  {
    hide FreezeTick, TakenAt;
  }

  lemma EndReleases(states: seq<Sys>, actions: seq<Action>, i: nat, p: nat)
    requires |states| == |actions| + 1 && i <= p < |actions| && StillWaits(states, actions, i, p)
    requires Finishes(states[p], states[p + 1])
    ensures ReleasedAt(states, i, p + 1)
  {
    hide TakenAt, Commits;
  }

  // ---- when the sync returns ----

  /** A generation later than the one of state i is published after i, and completes its number. */
  lemma PublishedSince(states: seq<Sys>, actions: seq<Action>, i: nat, p: nat)
    requires IsRun(states, actions) && Init(states[0]) && |states| == |actions| + 1 && i < |states|
    requires Publishes(states, p, states[i].gen)
    ensures i < p && Finishes(states[p], states[p + 1]) && InFlight(states[p].pc)
    ensures states[p + 1].completed == states[p].running == states[p].next
    ensures Commits(states[p].g, |PcNodes(states[p])|)
  {
    hide PhysOf, IsRun, Init, Snaps, Steady, OnTheWay, Commits;
    if p <= i {
      GenGrows(states, actions, p, i);
    }
    NumbersAt(states, actions, p);
    TurnAt(states, actions, p);
    NextMoves(states, actions, p);
  }

  lemma NextMoves(states: seq<Sys>, actions: seq<Action>, p: nat)
    requires |states| == |actions| + 1 && p < |actions| && states[p + 1].next != states[p].next
    ensures !Steady(states[p], states[p + 1]) && !Snaps(states[p], actions[p], states[p + 1])
  {
    hide FreezeTick;
  }

  lemma {:induction false} CountersGrow(states: seq<Sys>, actions: seq<Action>, i: nat, j: nat)
    requires IsRun(states, actions) && Init(states[0]) && i <= j < |states|
    ensures states[i].running <= states[j].running && states[i].completed <= states[j].completed
    ensures states[i].next <= states[j].next
    decreases j
  {
    hide PhysOf, IsRun, Init, FreezeTick, OnTheWay, Commits;
    if i < j {
      var k := j - 1;
      RunSizes(states, actions);
      CountersGrow(states, actions, i, k);
      NumbersAt(states, actions, k);
      TurnAt(states, actions, k);
    }
  }

  /** If the generation of the call is published in time, it is by the very step that releases. */
  lemma PublishReleases(states: seq<Sys>, actions: seq<Action>, i: nat, r: nat)
    requires IsRun(states, actions) && Init(states[0]) && |states| == |actions| + 1 && Released(states, i, r)
    requires InHistory(states, r, states[i].gen)
    ensures r > i + 1 && Publishes(states, r - 1, states[i].gen)
  {
    hide PhysOf, IsRun, Init, Finishes, OnTheWay, Commits, Publishes;
    var p: nat :| p < r && Publishes(states, p, states[i].gen);
    PublishedSince(states, actions, i, p);
    CountersGrow(states, actions, i, p);
    assert p + 1 < r ==> ReleasedAt(states, i, p + 1);
  }

  /** The last state in which the sync waits, for a call of use or not. */
  lemma LastWait(states: seq<Sys>, actions: seq<Action>, i: nat, r: nat, b: u64)
    requires IsRun(states, actions) && Init(states[0]) && |states| == |actions| + 1 && Released(states, i, r)
    requires actions[i].Sync? && b in states[i].staged && i + 1 < r
    ensures StillWaits(states, actions, i, r - 1) && states[r - 1].running == states[r - 1].next
    ensures Steady(states[r - 1], states[r]) || Snaps(states[r - 1], actions[r - 1], states[r])
         || Finishes(states[r - 1], states[r])
    ensures states[i].completed < states[i].running && !states[r - 1].shutdown
  {
    hide PhysOf, IsRun, Init, Steady, Snaps, Finishes, StillWaits;
    forall x | i < x <= r - 1 ensures !ReleasedAt(states, i, x) {
    }
    WhileWaiting(states, actions, i, r - 1, b);
    NumbersAt(states, actions, r - 1);
    TurnAt(states, actions, r - 1);
    CountersGrow(states, actions, i, r - 1);
    assert !ReleasedAt(states, i, r - 1);
  }

  lemma OneSnapshot(states: seq<Sys>, actions: seq<Action>, k: nat, m: nat)
    requires IsRun(states, actions) && Init(states[0]) && Snapshot(states, actions, k) && Snapshot(states, actions, m)
    requires states[k].gen == states[m].gen
    ensures k == m
  {
    hide PhysOf, IsRun, Init, Flattens, Shaped;
    RunSizes(states, actions);
    SnapshotIs(states, actions, k);
    SnapshotIs(states, actions, m);
    if k < m {
      GenGrows(states, actions, k + 1, m);
    } else if m < k {
      GenGrows(states, actions, m + 1, k);
    }
  }

  /** A snapshot taken while waiting decides whether the generation fits. */
  lemma FitsAsTaken(states: seq<Sys>, actions: seq<Action>, i: nat, r: nat, k: nat, nodes: seq<Node>)
    requires IsRun(states, actions) && Init(states[0]) && |states| == |actions| + 1 && i < k < r < |states|
    requires TakenAt(states, actions, k, states[i].gen, nodes)
    ensures GenerationFits(states, actions, i, r, states[i].gen) <==> Commits(states[r].g, |nodes|)
  {
    hide PhysOf, IsRun, Init, Commits, Snapshot;
    RunShape(states, actions, k);
    RunShape(states, actions, r);
    forall m | i < m < r && Snapshot(states, actions, m) && states[m].gen == states[i].gen ensures m == k {
      OneSnapshot(states, actions, k, m);
    }
  }

  /** A sync of use ends with the publication of what was staged when it was called. */
  lemma UsefulPublishes(states: seq<Sys>, actions: seq<Action>, i: nat, r: nat, b: u64)
    requires IsRun(states, actions) && Init(states[0]) && |states| == |actions| + 1 && Released(states, i, r)
    requires actions[i].Sync? && b in states[i].staged && Useful(states, actions, i, r)
    ensures InHistory(states, r, states[i].gen)
  {
    hide PhysOf, IsRun, Init, OnTheWay, Commits, FreezeTick, GenerationFits, TakenAt;
    var p := r - 1;
    if p == i {
      CallKeeps(states, actions, i);
    } else {
      LastWait(states, actions, i, r, b);
      ShutdownKept(states, actions, p);
      assert Finishes(states[p], states[r]);
      var k :| i < k < p && TakenAt(states, actions, k, states[i].gen, PcNodes(states[p]));
      FitsAsTaken(states, actions, i, r, k, PcNodes(states[p]));
      RunShape(states, actions, p);
      RunShape(states, actions, r);
      TakenNodes(states, actions, k, states[i].gen, PcNodes(states[p]));
      assert Publishes(states, p, states[i].gen);
    }
  }

  lemma TakenNodes(states: seq<Sys>, actions: seq<Action>, k: nat, g: nat, nodes: seq<Node>)
    requires |states| == |actions| + 1 && TakenAt(states, actions, k, g, nodes)
    ensures nodes != []
  {}

  lemma CallKeeps(states: seq<Sys>, actions: seq<Action>, i: nat)
    requires IsRun(states, actions) && |states| == |actions| + 1 && i < |actions| && actions[i].Sync?
    ensures states[i + 1].completed == states[i].completed && states[i + 1].shutdown == states[i].shutdown
    ensures states[i + 1].gen == states[i].gen && states[i + 1].next == states[i].next
  {
    hide PhysOf, Shaped;
    assert Step(states[i], actions[i], states[i + 1]);
  }

  lemma ShutdownKept(states: seq<Sys>, actions: seq<Action>, p: nat)
    requires IsRun(states, actions) && |states| == |actions| + 1 && p < |actions|
    ensures states[p].shutdown ==> states[p + 1].shutdown
  {
    hide PhysOf, Shaped, Step;
    assert Step(states[p], actions[p], states[p + 1]);
    ShutdownStep(states[p], actions[p], states[p + 1]);
  }

  lemma ShutdownStep(s: Sys, a: Action, t: Sys)
    requires Step(s, a, t)
    ensures s.shutdown ==> t.shutdown
  {
    hide PhysOf, Shaped, View, Seed, Older, IsHome, TickStep;
    if a.Tick? {
      TickFrame(s, a.nodes, t);
    } else if a.Stage? {
      HomeBlock(s.g, |s.disk.base|, a.b);
    }
  }

  /** And only then. */
  lemma PublishedUseful(states: seq<Sys>, actions: seq<Action>, i: nat, r: nat, b: u64)
    requires IsRun(states, actions) && Init(states[0]) && |states| == |actions| + 1 && Released(states, i, r)
    requires actions[i].Sync? && b in states[i].staged && InHistory(states, r, states[i].gen)
    ensures Useful(states, actions, i, r)
  {
    hide PhysOf, IsRun, Init, OnTheWay, Commits, FreezeTick, GenerationFits, TakenAt, InHistory;
    PublishReleases(states, actions, i, r);
    LastWait(states, actions, i, r, b);
    var p := r - 1;
    PublishedSince(states, actions, i, p);
    var k :| i < k < p && TakenAt(states, actions, k, states[i].gen, PcNodes(states[p]));
    FitsAsTaken(states, actions, i, r, k, PcNodes(states[p]));
    RunShape(states, actions, p);
    RunShape(states, actions, r);
  }

  /** Recovery of img gives whole snapshots, and among them the one that ended generation g. */
  ghost predicate Recovers(states: seq<Sys>, actions: seq<Action>, j: nat, img: Image, g: nat)
    requires |states| == |actions| + 1 && j < |states|
  {
    exists ks :: RecoversSnapshots(states, actions, j, img, ks) && HasGen(states, ks, g)
  }

  /** From state r on every crash recovers it. */
  ghost predicate DurableFrom(states: seq<Sys>, actions: seq<Action>, r: nat, g: nat)
    requires |states| == |actions| + 1
  {
    forall j: nat, img: Image :: r <= j < |states| && CrashImage(states[j].disk, img) ==>
      Recovers(states, actions, j, img, g)
  }

  /** In state r every crash recovers whole snapshots, and the one that ends generation g is none of them. */
  ghost predicate ForgottenAt(states: seq<Sys>, actions: seq<Action>, r: nat, g: nat)
    requires |states| == |actions| + 1 && r < |states|
  {
    forall img: Image :: CrashImage(states[r].disk, img)
      ==> exists ks :: RecoversSnapshots(states, actions, r, img, ks) && !HasGen(states, ks, g)
  }

  lemma HistoryGrows(states: seq<Sys>, r: nat, j: nat, g: nat)
    requires r <= j && InHistory(states, r, g)
    ensures InHistory(states, j, g)
  {
    var p: nat :| p < r && Publishes(states, p, g);
    assert p < j;
  }

  lemma PublishedDurable(states: seq<Sys>, actions: seq<Action>, r: nat, g: nat)
    requires IsRun(states, actions) && Init(states[0]) && |states| == |actions| + 1 && AllSettled(states[0].disk)
    requires InHistory(states, r, g)
    ensures DurableFrom(states, actions, r, g)
  {
    hide PhysOf, IsRun, Init, AllSettled, CrashImage, InHistory, HasGen, RecoversSnapshots;
    RunShapes(states, actions);
    forall j: nat, img: Image | r <= j < |states| && CrashImage(states[j].disk, img)
      ensures Recovers(states, actions, j, img, g)
    {
      HistoryGrows(states, r, j, g);
      var ks := HandlesAtomic(states, actions, j, img);
    }
  }

  /** A sync that returns without shutdown leaves no commit of its own generation under way. */
  lemma NothingUnderWay(states: seq<Sys>, actions: seq<Action>, i: nat, r: nat, b: u64)
    requires IsRun(states, actions) && Init(states[0]) && |states| == |actions| + 1 && Released(states, i, r)
    requires actions[i].Sync? && b in states[i].staged && !states[r].shutdown
    ensures !(states[r].pc.Committing? && states[r].gen == states[i].gen + 1)
  {
    hide PhysOf, IsRun, Init, OnTheWay, Commits, FreezeTick, TakenAt;
    if r == i + 1 {
      CallKeeps(states, actions, i);
    } else {
      LastWait(states, actions, i, r, b);
    }
  }

  /**
   Sync, exactly. What was staged when it was called is in every crash from its return on, as
   part of a whole snapshot, if and only if at the call no generation is in flight and the
   running number is not completed, the generation fits, and no shutdown ends the wait. If it
   is not, then unless a shutdown ended the wait no crash at the return shows it.
   */
  lemma SyncExact(states: seq<Sys>, actions: seq<Action>, i: nat, r: nat)
    requires IsRun(states, actions) && Init(states[0]) && |states| == |actions| + 1 && AllSettled(states[0].disk)
    requires Released(states, i, r) && actions[i].Sync? && states[i].staged != map[]
    ensures InHistory(states, r, states[i].gen) <==> Useful(states, actions, i, r)
    ensures Useful(states, actions, i, r) ==> DurableFrom(states, actions, r, states[i].gen)
    ensures !Useful(states, actions, i, r) && !states[r].shutdown ==> ForgottenAt(states, actions, r, states[i].gen)
  {
    hide PhysOf, IsRun, Init, AllSettled, CrashImage, InHistory, HasGen, RecoversSnapshots, Useful, DurableFrom;
    var b :| b in states[i].staged;
    var g := states[i].gen;
    if Useful(states, actions, i, r) {
      UsefulPublishes(states, actions, i, r, b);
      PublishedDurable(states, actions, r, g);
    } else {
      if InHistory(states, r, g) {
        PublishedUseful(states, actions, i, r, b);
      }
      if !states[r].shutdown {
        NothingUnderWay(states, actions, i, r, b);
        RunShapes(states, actions);
        forall img: Image | CrashImage(states[r].disk, img)
          ensures exists ks :: RecoversSnapshots(states, actions, r, img, ks) && !HasGen(states, ks, g)
        {
          var ks := HandlesAtomic(states, actions, r, img);
        }
      }
    }
  }

  // ---- what that means for one block ----

  /** The snapshot of step k has v as its copy of block b. */
  ghost predicate CopyIn(states: seq<Sys>, actions: seq<Action>, k: nat, b: nat, v: Block)
    requires |states| == |actions| + 1
  {
    SnapshotOf(states, actions, k) && LastCopy(SnapshotCopies(states, actions, k), b) == Some(v)
  }

  /** The newest of the copies of b is that of a snapshot not older than one that has a copy. */
  lemma {:induction false} NewestSnapshot(states: seq<Sys>, actions: seq<Action>, i: nat, ks: seq<nat>, b: nat, m: nat)
    requires |states| == |actions| + 1 && Snapshots(states, actions, i, ks) && m < |ks|
    requires LastCopy(SnapshotCopies(states, actions, ks[m]), b).Some?
    ensures LastCopy(AllCopies(states, actions, i, ks), b).Some?
    ensures var v := LastCopy(AllCopies(states, actions, i, ks), b).value;
            exists n :: m <= n < |ks| && CopyIn(states, actions, ks[n], b, v)
    decreases |ks|
  {
    hide SnapshotCopies, SnapshotOf;
    var front, last := ks[..|ks| - 1], ks[|ks| - 1];
    LastCopyConcat(AllCopies(states, actions, i, front), SnapshotCopies(states, actions, last), b);
    if LastCopy(SnapshotCopies(states, actions, last), b).Some? {
      assert CopyIn(states, actions, ks[|ks| - 1], b, LastCopy(AllCopies(states, actions, i, ks), b).value);
    } else {
      NewestSnapshot(states, actions, i, front, b, m);
      var n :| m <= n < |front|
               && CopyIn(states, actions, front[n], b, LastCopy(AllCopies(states, actions, i, front), b).value);
      assert CopyIn(states, actions, ks[n], b, LastCopy(AllCopies(states, actions, i, ks), b).value);
    }
  }

  /**
   Block by block: a block staged when a sync of use was called is recovered, by every crash
   from its return on, with the content that a snapshot taken after the call has of it.
   */
  lemma SyncedBlock(states: seq<Sys>, actions: seq<Action>, i: nat, r: nat, j: nat, img: Image, b: u64)
    returns (k: nat)
    requires IsRun(states, actions) && Init(states[0]) && |states| == |actions| + 1 && AllSettled(states[0].disk)
    requires Released(states, i, r) && actions[i].Sync? && b in states[i].staged && Useful(states, actions, i, r)
    requires r <= j < |states| && CrashImage(states[j].disk, img) && StagedOnly(states, actions, j, b)
    ensures Fits(states[0].g, |img|) && b < |img|
    ensures i < k < j && CopyIn(states, actions, k, b, RecoveredBlock(img, states[0].g, b))
  {
    hide PhysOf, IsRun, Init, AllSettled, CrashImage, InHistory, Useful, CopyIn, RecoveredBlock, SnapshotCopies;
    hide SnapshotOf, StagedOnly;
    SyncExact(states, actions, i, r);
    assert Recovers(states, actions, j, img, states[i].gen);
    var ks :| RecoversSnapshots(states, actions, j, img, ks) && HasGen(states, ks, states[i].gen);
    var m :| 0 <= m < |ks| && GenAt(states, ks[m], states[i].gen);
    OnlyHome(states, actions, j, b);
    SnapshotCopiesIt(states, actions, i, ks[m], b);
    NewestSnapshot(states, actions, j, ks, b, m);
    var n :| m <= n < |ks| && CopyIn(states, actions, ks[n], b, LastCopy(AllCopies(states, actions, j, ks), b).value);
    k := ks[n];
    assert ks[m] <= ks[n];
  }

  lemma OnlyHome(states: seq<Sys>, actions: seq<Action>, j: nat, b: nat)
    requires states != [] && j <= |actions| && StagedOnly(states, actions, j, b)
    ensures b < |states[0].disk.base|
  {
    HomeBlock(states[0].g, |states[0].disk.base|, b);
  }

  lemma {:induction false} SnapshotCopiesIt(states: seq<Sys>, actions: seq<Action>, i: nat, k: nat, b: u64)
    requires IsRun(states, actions) && Init(states[0]) && |states| == |actions| + 1 && i < |actions| && actions[i].Sync?
    requires SnapshotOf(states, actions, k) && states[k].gen == states[i].gen && b in states[i].staged
    ensures i < k && LastCopy(SnapshotCopies(states, actions, k), b).Some?
  {
    hide PhysOf, IsRun, Init, Shaped;
    SnapshotAfter(states, actions, k, i);
    StagedWhile(states, actions, i, k, b);
    SnapshotIs(states, actions, k);
    FlattenedCopy(states[k].bufs, actions[k].nodes, states[k].staged, b);
  }

  // ---- returns ----

  /** The call of step i by c has not been answered by state q. */
  ghost predicate Unanswered(actions: seq<Action>, i: nat, q: nat, c: nat) {
    forall x :: i < x < q && x < |actions| ==> actions[x] != Return(c)
  }

  lemma {:induction false} TargetKept(states: seq<Sys>, actions: seq<Action>, i: nat, q: nat, c: nat)
    requires IsRun(states, actions) && |states| == |actions| + 1 && i < q < |states|
    requires actions[i] == Sync(c) && Unanswered(actions, i, q, c)
    ensures c in states[q].syncs && states[q].syncs[c] == states[i].running
    decreases q
  {
    hide PhysOf, Shaped, TickStep, View, Seed, Older, IsHome, StageStep;
    var p := q - 1;
    assert Step(states[p], actions[p], states[p + 1]);
    if p > i {
      TargetKept(states, actions, i, p, c);
      SyncsStep(states[p], actions[p], states[q], c);
      assert actions[p] != Return(c);
    }
  }

  lemma SyncsStep(s: Sys, a: Action, t: Sys, c: nat)
    requires Step(s, a, t) && c in s.syncs && a != Return(c)
    ensures c in t.syncs && t.syncs[c] == s.syncs[c]
  {
    hide PhysOf, Shaped, View, Seed, Older, IsHome, TickStep;
    if a.Tick? {
      TickFrame(s, a.nodes, t);
    } else if a.Stage? {
      HomeBlock(s.g, |s.disk.base|, a.b);
    }
  }

  lemma {:induction false} FirstRelease(states: seq<Sys>, i: nat, q: nat) returns (r: nat)
    requires i < q && ReleasedAt(states, i, q)
    ensures r <= q && Released(states, i, r)
    decreases q
  {
    r := q;
    if x :| i < x < q && ReleasedAt(states, i, x) {
      r := FirstRelease(states, i, x);
    }
  }

  /** A sync returns only where it may: in the state SyncExact speaks of, or later. */
  lemma ReturnsReleased(states: seq<Sys>, actions: seq<Action>, i: nat, q: nat, c: nat) returns (r: nat)
    requires IsRun(states, actions) && |states| == |actions| + 1 && i < q < |actions|
    requires actions[i] == Sync(c) && actions[q] == Return(c) && Unanswered(actions, i, q, c)
    ensures r <= q && Released(states, i, r)
  {
    hide PhysOf, Shaped, Released;
    TargetKept(states, actions, i, q, c);
    assert Step(states[q], actions[q], states[q + 1]);
    r := FirstRelease(states, i, q);
  }

  // ---- a sync that misses ----

  lemma NeverDirect(r: Story, s0: Sys, b: u64, w: Block)
    requires Tells(r, s0, b, w) && Init(s0) && IsHome(s0.g, |s0.disk.base|, b)
    ensures |r.states| == |r.actions| + 1 && IsRun(r.states, r.actions) && r.states[0] == s0
    ensures StagedOnly(r.states, r.actions, |r.actions|, b)
  {
    hide PhysOf, IsRun, Init, LastWritten, IsHome;
    forall k | 0 <= k < |r.actions| ensures NotDirect(r.actions[k], b) {
      assert Keeps(r, k);
    }
  }

  /** With the thread between turns, every crash recovers block b as the logical disk has it. */
  lemma CrashAtRest(r: Story, s0: Sys, b: u64, w: Block, img: Image)
    requires Tells(r, s0, b, w) && Init(s0) && IsHome(s0.g, |s0.disk.base|, b) && b < |s0.disk.base|
    requires Settled(s0.disk, b) && Shaped(Now(r)) && LiveBufsIn(Now(r)) && Now(r).pc == Lagging
    requires CrashImage(Now(r).disk, img) && b < |Now(r).disk.base|
    ensures Fits(s0.g, |img|) && b < |img| && RecoveredBlock(img, s0.g, b) == Logical(Now(r), b)
  {
    hide PhysOf, IsRun, Init, Inv, Shaped, HomeOk, Settled, CrashImage, RecoveredBlock, Logical, IsHome, LiveBufsIn;
    hide LastWritten, StagedOnly, Keeps;
    NeverDirect(r, s0, b, w);
    var n := |r.actions|;
    RunShapes(r.states, r.actions);
    RunShape(r.states, r.actions, n);
    InvParts(r.states[n]);
    RunLogical(r.states, r.actions, n, b);
    StillCrash(Now(r), img);
    LiveShows(Now(r), img, b);
  }

  /**
   From every beginning of a session: v is in flight, w is staged over it, and a sync is
   called. It returns when v is published. No crash shows w, every crash shows v.
   */
  lemma SyncMisses(s0: Sys, b: u64, v: Block, w: Block) returns (r: Story, i: nat)
    requires Ready(s0, b) && Older(v, s0.next) && Older(w, s0.next) && Settled(s0.disk, b)
    ensures Tells(r, s0, b, w) && i + 1 < |r.actions| && b < |s0.disk.base|
    ensures r.actions[i] == Sync(0) && r.actions[|r.actions| - 1] == Return(0)
    ensures var s := r.states[i];
            b in s.staged && s.staged[b] < |s.bufs| && s.bufs[s.staged[b]] == w && s.handles == map[]
    ensures forall img: Image :: CrashImage(Now(r).disk, img)
              ==> Fits(s0.g, |img|) && b < |img| && RecoveredBlock(img, s0.g, b) == v
  {
    hide PhysOf, Shaped, IsRun, View, IsHome, Stable, HomeOlder, LastWritten, Older, Logical, Settled, CrashImage;
    hide LiveBufsIn;
    hide RecoveredBlock;
    r := StagedAgain(s0, b, v);
    r := FillIt(r, s0, b, v, 1, w);
    r := StopHandle(r, s0, b, w, 1);
    assert Now(r).handles == map[];
    i := |r.actions|;
    var call := Now(r).(requested := true, syncs := map[0 := s0.running]);
    assert Now(r).syncs[0 := s0.running] == map[0 := s0.running];
    r := Forward(r, s0, b, w, Sync(0), call);
    r := CommitOne(r, s0, b, w, Node(b, 0));
    NewestDecides(Now(r), b, Node(b, 0));
    r := Forward(r, s0, b, w, Return(0), Now(r).(syncs := Now(r).syncs - {0}));
    NewestDecides(Now(r), b, Node(b, 0));
    forall img: Image | CrashImage(Now(r).disk, img)
      ensures Fits(s0.g, |img|) && b < |img| && RecoveredBlock(img, s0.g, b) == v
    {
      CrashAtRest(r, s0, b, w, img);
    }
  }
}
