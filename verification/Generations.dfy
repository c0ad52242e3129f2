/**
 Handles and generations over whole runs: whatever a handle does, it does in one generation;
 the snapshot that ends a generation has all of it and nothing changes in it afterwards.
 */
module Generations {
  import opened Bytes
  import opened DiskFormat
  import opened Device
  import opened LogFormat
  import opened Replay
  import opened CrashSafety
  import opened Pipeline
  import opened PipelineJournal
  import opened PipelineInv
  import opened LogicalDisk
  import opened CrashRuns

  /** a is an action of handle h. */
  predicate ActsAs(a: Action, h: nat) {
    (a.Start? || a.Stage? || a.Fill? || a.WriteDirect? || a.Stop?) && a.h == h
  }

  lemma GenTick(s: Sys, nodes: seq<Node>, t: Sys)
    requires Shaped(s) && TickStep(s, t, nodes)
    ensures t.gen == if s.pc.Freezing? then s.gen + 1 else s.gen
    ensures t.born == s.born
  {
    hide PhysOf, Shaped, TickStep, Flattens;
    TickFrame(s, nodes, t);
  }

  /** Only the snapshot begins a generation, and a handle's birth is never rewritten. */
  lemma GenStep(s: Sys, a: Action, t: Sys)
    requires HandlesOk(s) && Step(s, a, t)
    ensures t.gen == if a.Tick? && s.pc.Freezing? then s.gen + 1 else s.gen
    ensures forall h :: h in s.born ==> h in t.born && t.born[h] == s.born[h]
    ensures forall h :: ActsAs(a, h) ==> h in t.born && t.born[h] == s.gen
  {
    hide PhysOf, Shaped, TickStep, View, Older, Seed;
    if a.Tick? {
      GenTick(s, a.nodes, t);
    } else {
      if a.Stage? {
        HomeBlock(s.g, |s.disk.base|, a.b);
      }
      forall h | ActsAs(a, h) ensures h in t.born && t.born[h] == s.gen {
        assert a.Start? || HandleOk(s, h);
      }
    }
  }

  lemma {:induction false} BornStays(states: seq<Sys>, actions: seq<Action>, i: nat, j: nat, h: nat)
    requires IsRun(states, actions) && Init(states[0]) && i <= j < |states| && h in states[i].born
    ensures h in states[j].born && states[j].born[h] == states[i].born[h]
    decreases j
  {
    hide PhysOf, Step, Inv, Init, HandlesOk;
    if i < j {
      BornStays(states, actions, i, j - 1, h);
      HandlesAt(states, actions, j - 1);
      assert Step(states[j - 1], actions[j - 1], states[j - 1 + 1]);
      GenStep(states[j - 1], actions[j - 1], states[j]);
    }
  }

  lemma HandlesAt(states: seq<Sys>, actions: seq<Action>, i: nat)
    requires IsRun(states, actions) && Init(states[0]) && i < |states|
    ensures HandlesOk(states[i])
  {
    hide PhysOf, IsRun, Init, HandlesOk, JournalInv, StagingOk, NodesHome, BufsOlder, HomeOlder, DirectOk;
    RunInv(states, actions, i);
  }

  lemma {:induction false} GenGrows(states: seq<Sys>, actions: seq<Action>, i: nat, j: nat)
    requires IsRun(states, actions) && Init(states[0]) && i <= j < |states|
    ensures states[i].gen <= states[j].gen
    decreases j
  {
    hide PhysOf, Step, Inv, Init, HandlesOk;
    if i < j {
      GenGrows(states, actions, i, j - 1);
      HandlesAt(states, actions, j - 1);
      assert Step(states[j - 1], actions[j - 1], states[j - 1 + 1]);
      GenStep(states[j - 1], actions[j - 1], states[j]);
    }
  }

  /** Everything one handle does, it does in one generation. */
  lemma OneGeneration(states: seq<Sys>, actions: seq<Action>, i: nat, j: nat, h: nat)
    requires IsRun(states, actions) && Init(states[0]) && i <= j < |actions|
    requires ActsAs(actions[i], h) && ActsAs(actions[j], h)
    ensures states[i].gen == states[j].gen
  {
    hide PhysOf, Step, Inv, Init, HandlesOk;
    HandlesAt(states, actions, i);
    HandlesAt(states, actions, j);
    assert Step(states[i], actions[i], states[i + 1]) && Step(states[j], actions[j], states[j + 1]);
    GenStep(states[i], actions[i], states[i + 1]);
    GenStep(states[j], actions[j], states[j + 1]);
    BornStays(states, actions, i + 1, j + 1, h);
  }

  /** The commit thread takes the snapshot at step k. */
  ghost predicate Snapshot(states: seq<Sys>, actions: seq<Action>, k: nat)
    requires |states| == |actions| + 1
  {
    k < |actions| && actions[k].Tick? && states[k].pc.Freezing?
  }

  lemma SnapshotIs(states: seq<Sys>, actions: seq<Action>, k: nat)
    requires IsRun(states, actions) && Snapshot(states, actions, k)
    ensures Shaped(states[k]) && FreezeTick(states[k], states[k + 1], actions[k].nodes)
  {
    hide PhysOf, Shaped, FreezeTick;
    assert Step(states[k], actions[k], states[k + 1]);
  }

  /**
   No handle is live when a snapshot is taken, and none that acted before it acts again: a
   committed transaction is made of whole handles.
   */
  lemma SnapshotEndsHandles(states: seq<Sys>, actions: seq<Action>, k: nat)
    requires IsRun(states, actions) && Init(states[0]) && Snapshot(states, actions, k)
    ensures states[k].handles == map[]
    ensures forall i, j, h :: 0 <= i < k < j < |actions| && ActsAs(actions[i], h) ==> !ActsAs(actions[j], h)
  {
    hide PhysOf, IsRun, Step, Init, Shaped, Flattens, ActsAs;
    RunSizes(states, actions);
    SnapshotIs(states, actions, k);
    forall i, j, h | 0 <= i < k < j < |actions| && ActsAs(actions[i], h) ensures !ActsAs(actions[j], h) {
      if ActsAs(actions[j], h) {
        OneGeneration(states, actions, i, j, h);
        GenGrows(states, actions, i, k);
        GenGrows(states, actions, k + 1, j);
      }
    }
  }

  // ---- what the snapshot holds ----

  lemma StagedKept(s: Sys, a: Action, t: Sys, b: u64)
    requires Step(s, a, t) && b in s.staged && !(a.Tick? && s.pc.Freezing?)
    ensures b in t.staged && t.staged[b] == s.staged[b]
  {
    hide PhysOf, Shaped, TickStep, View, Older, Seed;
    if a.Tick? {
      TickFrame(s, a.nodes, t);
    } else if a.Stage? {
      HomeBlock(s.g, |s.disk.base|, a.b);
    }
  }

  lemma {:induction false} StagedWhile(states: seq<Sys>, actions: seq<Action>, i: nat, k: nat, b: u64)
    requires IsRun(states, actions) && Init(states[0]) && i <= k < |states| && b in states[i].staged
    requires states[i].gen == states[k].gen
    ensures b in states[k].staged && states[k].staged[b] == states[i].staged[b]
    decreases k
  {
    hide PhysOf, Step, Init, HandlesOk;
    if i < k {
      var m := k - 1;
      GenGrows(states, actions, i, m);
      GenGrows(states, actions, m, k);
      HandlesAt(states, actions, m);
      assert Step(states[m], actions[m], states[m + 1]);
      GenStep(states[m], actions[m], states[k]);
      StagedWhile(states, actions, i, m, b);
      StagedKept(states[m], actions[m], states[k], b);
    }
  }

  ghost predicate HasNode(nodes: seq<Node>, n: Node) {
    exists i :: 0 <= i < |nodes| && nodes[i] == n
  }

  /** Every block a handle stages is in the snapshot that ends its generation. */
  lemma SnapshotHasStaged(states: seq<Sys>, actions: seq<Action>, i: nat, k: nat)
    requires IsRun(states, actions) && Init(states[0]) && Snapshot(states, actions, k)
    requires i < k && actions[i].Stage? && states[i].gen == states[k].gen
    ensures actions[i].b in states[i + 1].staged
    ensures HasNode(actions[k].nodes, Node(actions[i].b, states[i + 1].staged[actions[i].b]))
  {
    hide PhysOf, IsRun, Init, HandlesOk, Shaped, View, Seed;
    var b := actions[i].b;
    RunSizes(states, actions);
    StageAt(states, actions, i);
    GenGrows(states, actions, i, i + 1);
    GenGrows(states, actions, i + 1, k);
    StagedWhile(states, actions, i + 1, k, b);
    SnapshotIs(states, actions, k);
  }

  lemma StageAt(states: seq<Sys>, actions: seq<Action>, i: nat)
    requires IsRun(states, actions) && i < |actions| && actions[i].Stage?
    ensures actions[i].b in states[i + 1].staged
  {
    hide PhysOf, Shaped, Seed, Older;
    var s, a := states[i], actions[i];
    assert Step(s, a, states[i + 1]);
    HomeBlock(s.g, |s.disk.base|, a.b);
    StagedValues(s, a.h, a.b);
  }

  /** Nobody can write buffer buf any more. */
  ghost predicate Retired(s: Sys, buf: nat) {
    buf < |s.bufs| && buf !in s.staged.Values
  }

  lemma RetiredStep(s: Sys, a: Action, t: Sys, buf: nat)
    requires HandlesOk(s) && StagingOk(s) && Step(s, a, t) && Retired(s, buf)
    ensures Retired(t, buf) && t.bufs[buf] == s.bufs[buf]
  {
    hide PhysOf, Shaped, TickStep, View, Older, Seed, Taken, HandlesOk, StagingOk, Flattens, IsHome;
    if a.Tick? {
      TickFrame(s, a.nodes, t);
    } else if a.Stage? {
      HomeBlock(s.g, |s.disk.base|, a.b);
      RetiredStage(s, a.h, a.b, buf);
    } else if a.Fill? {
      StagedNotTaken(s, a.h, a.buf);
    }
  }

  lemma RetiredStage(s: Sys, h: nat, b: u64, buf: nat)
    requires Shaped(s) && h in s.handles && b < |s.disk.base| && Retired(s, buf)
    ensures Retired(StageStep(s, h, b), buf) && StageStep(s, h, b).bufs[buf] == s.bufs[buf]
  {
    hide PhysOf, Shaped, Seed;
    var t := StageStep(s, h, b);
    forall c | c in t.staged ensures t.staged[c] != buf {
      assert c in s.staged ==> s.staged[c] in s.staged.Values;
    }
  }

  lemma {:induction false} RetiredStays(states: seq<Sys>, actions: seq<Action>, i: nat, j: nat, buf: nat)
    requires IsRun(states, actions) && Init(states[0]) && i <= j < |states| && Retired(states[i], buf)
    ensures Retired(states[j], buf) && states[j].bufs[buf] == states[i].bufs[buf]
    decreases j
  {
    hide PhysOf, Step, Init, HandlesOk, StagingOk, Retired, JournalInv, NodesHome, BufsOlder, HomeOlder, DirectOk;
    if i < j {
      RetiredStays(states, actions, i, j - 1, buf);
      RunInv(states, actions, j - 1);
      assert Step(states[j - 1], actions[j - 1], states[j - 1 + 1]);
      RetiredStep(states[j - 1], actions[j - 1], states[j], buf);
      RetiredIn(states[i], buf);
      RetiredIn(states[j - 1], buf);
      RetiredIn(states[j], buf);
    } else {
      RetiredIn(states[i], buf);
    }
  }

  lemma RetiredIn(s: Sys, buf: nat)
    requires Retired(s, buf)
    ensures buf < |s.bufs|
  {}

  /** What a snapshot has taken never changes again. */
  lemma SnapshotFrozen(states: seq<Sys>, actions: seq<Action>, k: nat, j: nat, buf: nat)
    requires IsRun(states, actions) && Init(states[0]) && Snapshot(states, actions, k) && k < j < |states|
    requires buf < |states[k].bufs|
    ensures buf < |states[j].bufs| && states[j].bufs[buf] == states[k].bufs[buf]
  {
    hide PhysOf, IsRun, Init, Shaped, Flattens;
    SnapshotIs(states, actions, k);
    RetiredStays(states, actions, k + 1, j, buf);
  }

  // ---- from the snapshot to the journal ----

  /** The nodes on their way to the journal are those of an earlier snapshot, taken at k. */
  lemma {:induction false} OnTheWaySince(states: seq<Sys>, actions: seq<Action>, i: nat) returns (k: nat)
    requires IsRun(states, actions) && Init(states[0]) && i < |states| && PcNodes(states[i]) != []
    ensures Snapshot(states, actions, k) && k < i && actions[k].nodes == PcNodes(states[i])
    ensures forall q :: k < q <= i ==> PcNodes(states[q]) != []
    ensures states[i].gen == states[k].gen + 1
    decreases i
  {
    hide PhysOf, Step, Inv, Shaped, Flattens, Stable, HomeOlder;
    if i > 0 {
      k := i - 1;
      assert Step(states[k], actions[k], states[k + 1]);
      HandlesAt(states, actions, k);
      GenStep(states[k], actions[k], states[i]);
      if !Snapshot(states, actions, k) {
        SameOnTheWay(states[k], actions[k], states[i]);
        k := OnTheWaySince(states, actions, i - 1);
      } else {
        SnapshotIs(states, actions, k);
      }
    }
  }

  lemma SameOnTheWay(s: Sys, a: Action, t: Sys)
    requires Step(s, a, t) && !(a.Tick? && s.pc.Freezing?) && PcNodes(t) != []
    ensures PcNodes(t) == PcNodes(s)
  {
    hide PhysOf, Step, Shaped, TickStep, Passes, OnTheWay;
    if a.Tick? {
      IsTick(s, a, t);
      TickPasses(s, a.nodes, t);
      PassesNodes(s, t);
    } else {
      HandleFacts(s, a, t);
    }
  }

  /**
   What a commit writes is what the snapshot of one generation held at the moment it was
   taken, whatever handles have done since.
   */
  lemma CommitsSnapshot(states: seq<Sys>, actions: seq<Action>, i: nat) returns (k: nat)
    requires IsRun(states, actions) && Init(states[0]) && i < |states| && AllShaped(states) && PcNodes(states[i]) != []
    ensures Snapshot(states, actions, k) && k < i && actions[k].nodes == PcNodes(states[i])
    ensures BufsIn(actions[k].nodes, |states[k].bufs|) && BufsIn(actions[k].nodes, |states[i].bufs|)
    ensures CopiesOf(states[i].bufs, PcNodes(states[i])) == CopiesOf(states[k].bufs, actions[k].nodes)
    ensures forall q :: k < q <= i ==> PcNodes(states[q]) != []
    ensures states[i].gen == states[k].gen + 1
  {
    hide PhysOf, IsRun, Init, Shaped, Flattens;
    k := OnTheWaySince(states, actions, i);
    SnapshotIs(states, actions, k);
    FlattenedBufsIn(states[k], actions[k].nodes);
    var nodes := actions[k].nodes;
    forall n | 0 <= n < |nodes|
      ensures nodes[n].buf < |states[i].bufs| && states[i].bufs[nodes[n].buf] == states[k].bufs[nodes[n].buf]
    {
      SnapshotFrozen(states, actions, k, i, nodes[n].buf);
    }
    assert CopiesOf(states[i].bufs, nodes) == CopiesOf(states[k].bufs, nodes);
  }

  // ---- what a crash shows of a handle ----

  /** Snapshots taken before step i, each at most once, oldest first. */
  ghost predicate Snapshots(states: seq<Sys>, actions: seq<Action>, i: nat, ks: seq<nat>)
    requires |states| == |actions| + 1
  {
    && (forall m :: 0 <= m < |ks| ==> ks[m] < i && SnapshotOf(states, actions, ks[m]))
    && (forall m, n :: 0 <= m < n < |ks| ==> ks[m] < ks[n])
  }

  /** Step k takes a snapshot, and its copies are defined. */
  ghost predicate SnapshotOf(states: seq<Sys>, actions: seq<Action>, k: nat)
    requires |states| == |actions| + 1
  {
    Snapshot(states, actions, k) && BufsIn(actions[k].nodes, |states[k].bufs|)
  }

  /** All the blocks the snapshot of step k took, with the content they had then. */
  ghost function SnapshotCopies(states: seq<Sys>, actions: seq<Action>, k: nat): seq<Copy>
    requires |states| == |actions| + 1 && SnapshotOf(states, actions, k)
  {
    CopiesOf(states[k].bufs, actions[k].nodes)
  }

  ghost function AllCopies(states: seq<Sys>, actions: seq<Action>, i: nat, ks: seq<nat>): seq<Copy>
    requires |states| == |actions| + 1 && Snapshots(states, actions, i, ks)
    decreases |ks|
  {
    if ks == [] then []
    else AllCopies(states, actions, i, ks[..|ks| - 1]) + SnapshotCopies(states, actions, ks[|ks| - 1])
  }

  lemma {:induction false} SameCopies(states: seq<Sys>, actions: seq<Action>, i: nat, j: nat, ks: seq<nat>)
    requires |states| == |actions| + 1 && Snapshots(states, actions, i, ks) && i <= j
    ensures Snapshots(states, actions, j, ks)
    ensures AllCopies(states, actions, j, ks) == AllCopies(states, actions, i, ks)
    decreases |ks|
  {
    hide SnapshotOf, SnapshotCopies;
    if ks != [] {
      SameCopies(states, actions, i, j, ks[..|ks| - 1]);
    }
  }

  lemma {:induction false} MoreCopies(states: seq<Sys>, actions: seq<Action>, i: nat, ks: seq<nat>, k: nat)
    requires |states| == |actions| + 1 && Snapshots(states, actions, i, ks) && SnapshotOf(states, actions, k) && k < i
    requires ks == [] || ks[|ks| - 1] < k
    ensures Snapshots(states, actions, i, ks + [k])
    ensures AllCopies(states, actions, i, ks + [k])
         == AllCopies(states, actions, i, ks) + SnapshotCopies(states, actions, k)
  {
    hide SnapshotOf, SnapshotCopies;
    var all := ks + [k];
    assert all[..|ks|] == ks;
    forall m, n | 0 <= m < n < |all| ensures all[m] < all[n] {
    }
  }

  // ---- which generations have been published ----

  /** Step p publishes the generation that is on its way. */
  predicate Publishes(states: seq<Sys>, p: nat, g: nat) {
    p + 1 < |states| && states[p + 1].next != states[p].next && PcNodes(states[p]) != [] && states[p].gen == g + 1
  }

  /** Generation g has been published by state i. */
  ghost predicate InHistory(states: seq<Sys>, i: nat, g: nat) {
    exists p: nat :: p < i && Publishes(states, p, g)
  }

  /** The snapshot that ended generation g is among those of the steps ks. */
  ghost predicate HasGen(states: seq<Sys>, ks: seq<nat>, g: nat) {
    exists m :: 0 <= m < |ks| && GenAt(states, ks[m], g)
  }

  predicate GenAt(states: seq<Sys>, k: nat, g: nat) {
    k < |states| && states[k].gen == g
  }

  lemma HasGenSnoc(states: seq<Sys>, ks: seq<nat>, k: nat, g: nat)
    ensures HasGen(states, ks + [k], g) <==> HasGen(states, ks, g) || GenAt(states, k, g)
  {
    var all := ks + [k];
    if HasGen(states, ks, g) {
      var m :| 0 <= m < |ks| && GenAt(states, ks[m], g);
      assert GenAt(states, all[m], g);
    }
    if GenAt(states, k, g) {
      assert GenAt(states, all[|ks|], g);
    }
  }

  lemma InHistoryNext(states: seq<Sys>, i: nat, g: nat)
    ensures InHistory(states, i + 1, g) <==> InHistory(states, i, g) || Publishes(states, i, g)
  {
    if InHistory(states, i, g) {
      var p: nat :| p < i && Publishes(states, p, g);
      assert p < i + 1;
    }
  }

  /** The generation on its way at state i, added to the snapshots published before. */
  lemma AddOnTheWay(states: seq<Sys>, actions: seq<Action>, i: nat, ks: seq<nat>, clear: nat) returns (all: seq<nat>)
    requires IsRun(states, actions) && Init(states[0]) && i < |states| && AllShaped(states)
    requires |states| == |actions| + 1 && Snapshots(states, actions, i, ks)
    requires clear <= i && PcNodes(states[clear]) == [] && (ks == [] || ks[|ks| - 1] < clear)
    ensures Snapshots(states, actions, i, all)
    ensures AllCopies(states, actions, i, all) == AllCopies(states, actions, i, ks) + CopiesOnTheWay(states[i])
    ensures forall g: nat :: HasGen(states, all, g)
              <==> HasGen(states, ks, g) || (PcNodes(states[i]) != [] && states[i].gen == g + 1)
  {
    hide PhysOf, IsRun, Init, Shaped, Snapshot, HasGen;
    if PcNodes(states[i]) == [] {
      all := ks;
    } else {
      var k := CommitsSnapshot(states, actions, i);
      all := ks + [k];
      MoreCopies(states, actions, i, ks, k);
      forall g: nat ensures HasGen(states, all, g) <==> HasGen(states, ks, g) || states[i].gen == g + 1 {
        HasGenSnoc(states, ks, k, g);
      }
    }
  }

  /**
   The published commits are whole snapshots, in the order in which they were taken, those
   of the published generations. The thread was empty-handed at clear, after the last of them.
   */
  lemma {:induction false} HistoryWhole(states: seq<Sys>, actions: seq<Action>, i: nat)
    returns (ks: seq<nat>, clear: nat)
    requires IsRun(states, actions) && Init(states[0]) && i < |states| && AllShaped(states)
    ensures |states| == |actions| + 1 && Snapshots(states, actions, i, ks)
    ensures History(states, i) == AllCopies(states, actions, i, ks)
    ensures clear <= i && PcNodes(states[clear]) == [] && (ks == [] || ks[|ks| - 1] < clear)
    ensures forall g: nat :: HasGen(states, ks, g) <==> InHistory(states, i, g)
  {
    hide PhysOf, IsRun, Init, Shaped, CopiesOnTheWay, Snapshots, AllCopies, OnTheWay, InHistory, HasGen;
    RunSizes(states, actions);
    if i == 0 {
      ks, clear := [], 0;
      NoSnapshots(states, actions, i);
      NothingTaken(states[0]);
    } else {
      var j := i - 1;
      ks, clear := HistoryWhole(states, actions, j);
      ghost var before := ks;
      if states[i].next != states[j].next {
        ks := AddOnTheWay(states, actions, j, ks, clear);
        clear := i;
        PublishClears(states, actions, j);
        LastBefore(states, actions, j, ks);
      }
      SameCopies(states, actions, j, i, ks);
      forall g: nat ensures HasGen(states, ks, g) <==> InHistory(states, i, g) {
        InHistoryNext(states, j, g);
        assert HasGen(states, before, g) <==> InHistory(states, j, g);
      }
    }
  }

  lemma {:induction false} NoSnapshots(states: seq<Sys>, actions: seq<Action>, i: nat)
    requires |states| == |actions| + 1
    ensures Snapshots(states, actions, i, []) && AllCopies(states, actions, i, []) == []
    ensures forall g: nat :: !HasGen(states, [], g) && !InHistory(states, 0, g)
  {}

  lemma LastBefore(states: seq<Sys>, actions: seq<Action>, i: nat, ks: seq<nat>)
    requires |states| == |actions| + 1 && Snapshots(states, actions, i, ks)
    ensures ks == [] || ks[|ks| - 1] < i
  {}

  lemma NothingTaken(s: Sys)
    requires Init(s)
    ensures PcNodes(s) == []
  {
    hide PhysOf, Shaped, Stable, HomeOlder;
  }

  lemma PublishClears(states: seq<Sys>, actions: seq<Action>, j: nat)
    requires IsRun(states, actions) && j < |actions| && |states| == |actions| + 1
             && states[j + 1].next != states[j].next
    ensures PcNodes(states[j + 1]) == []
  {
    hide PhysOf, Step, TickStep, Shaped, Passes, OnTheWay;
    var s, a, t := states[j], actions[j], states[j + 1];
    assert Step(s, a, t);
    if !a.Tick? {
      HandleFacts(s, a, t);
    } else {
      IsTick(s, a, t);
      TickFrame(s, a.nodes, t);
      if !s.pc.Freezing? {
        TickPasses(s, a.nodes, t);
        PassesNodes(s, t);
      }
    }
  }

  /** Every block handle h has staged is in one of the snapshots, with its buffer. */
  ghost predicate WhollyIn(states: seq<Sys>, actions: seq<Action>, ks: seq<nat>, h: nat)
    requires |states| == |actions| + 1
  {
    exists k :: k in ks && forall j: nat :: StagesAs(actions, j, h) ==> TookBlock(states, actions, k, j)
  }

  /** Action j is the staging of a block by handle h. */
  predicate StagesAs(actions: seq<Action>, j: nat, h: nat) {
    j < |actions| && actions[j].Stage? && actions[j].h == h
  }

  /** The snapshot of step k took the buffer of the block staged in step j. */
  ghost predicate TookBlock(states: seq<Sys>, actions: seq<Action>, k: nat, j: nat)
    requires |states| == |actions| + 1
  {
    && k < |actions| && actions[k].Tick? && j < |actions| && actions[j].Stage? && actions[j].b in states[j + 1].staged
    && HasNode(actions[k].nodes, Node(actions[j].b, states[j + 1].staged[actions[j].b]))
  }

  /** None of the snapshots is of a generation in which handle h staged anything. */
  ghost predicate NotIn(states: seq<Sys>, actions: seq<Action>, ks: seq<nat>, h: nat)
    requires |states| == |actions| + 1
  {
    forall k, j: nat :: k in ks && StagesAs(actions, j, h) ==> !SameGeneration(states, k, j)
  }

  predicate SameGeneration(states: seq<Sys>, k: nat, j: nat) {
    k < |states| && j < |states| && states[k].gen == states[j].gen
  }

  lemma HandleWhole(states: seq<Sys>, actions: seq<Action>, i: nat, ks: seq<nat>, h: nat)
    requires IsRun(states, actions) && Init(states[0]) && |states| == |actions| + 1 && Snapshots(states, actions, i, ks)
    ensures WhollyIn(states, actions, ks, h) || NotIn(states, actions, ks, h)
  {
    hide PhysOf, IsRun, Init, HasNode;
    if !NotIn(states, actions, ks, h) {
      var k, j0: nat :| k in ks && StagesAs(actions, j0, h) && SameGeneration(states, k, j0);
      var m :| 0 <= m < |ks| && ks[m] == k;
      forall j: nat | StagesAs(actions, j, h) ensures TookBlock(states, actions, k, j) {
        StagesInOne(states, actions, j0, j, h);
        SnapshotAfter(states, actions, k, j);
        SnapshotHasStaged(states, actions, j, k);
      }
    }
  }

  lemma StagesInOne(states: seq<Sys>, actions: seq<Action>, i: nat, j: nat, h: nat)
    requires IsRun(states, actions) && Init(states[0]) && StagesAs(actions, i, h) && StagesAs(actions, j, h)
    ensures i < |states| && j < |states| && states[i].gen == states[j].gen
  {
    hide PhysOf, IsRun, Init;
    RunSizes(states, actions);
    if i <= j {
      OneGeneration(states, actions, i, j, h);
    } else {
      OneGeneration(states, actions, j, i, h);
    }
  }

  /** What happens in a generation happens before the snapshot that ends it. */
  lemma SnapshotAfter(states: seq<Sys>, actions: seq<Action>, k: nat, j: nat)
    requires IsRun(states, actions) && Init(states[0]) && Snapshot(states, actions, k)
    requires j < |actions| && !actions[j].Tick? && states[j].gen == states[k].gen
    ensures j < k
  {
    hide PhysOf, IsRun, Init, Shaped, Flattens;
    RunSizes(states, actions);
    if j > k {
      SnapshotIs(states, actions, k);
      GenGrows(states, actions, k + 1, j);
    }
  }

  /** Recovery of img gives the blocks of whole snapshots, one after the other. */
  ghost predicate RecoversSnapshots(states: seq<Sys>, actions: seq<Action>, i: nat, img: Image, ks: seq<nat>)
    requires |states| == |actions| + 1 && i < |states|
  {
    && Fits(states[0].g, |img|) && |img| == |states[0].disk.base|
    && Snapshots(states, actions, i, ks)
    && RecoversTo(states, actions, i, img, AllCopies(states, actions, i, ks))
  }

  /**
   Atomicity of handles. A crash at any step of any run recovers, over what the session
   began with, the content of whole snapshots in the order they were taken: for every handle
   all the blocks it staged are among them, or nothing of its generation is. The published
   generations are among them, and at most the one being committed besides.
   */
  lemma HandlesAtomic(states: seq<Sys>, actions: seq<Action>, i: nat, img: Image) returns (ks: seq<nat>)
    requires IsRun(states, actions) && Init(states[0]) && i < |states| && AllShaped(states)
    requires AllSettled(states[0].disk) && CrashImage(states[i].disk, img)
    ensures |states| == |actions| + 1 && RecoversSnapshots(states, actions, i, img, ks)
    ensures forall h: nat :: WhollyIn(states, actions, ks, h) || NotIn(states, actions, ks, h)
    ensures forall g: nat :: InHistory(states, i, g) ==> HasGen(states, ks, g)
    ensures forall g: nat :: HasGen(states, ks, g)
              ==> InHistory(states, i, g) || (states[i].pc.Committing? && states[i].gen == g + 1)
  {
    hide PhysOf, IsRun, Init, Shaped, CrashImage, RecoversTo, Snapshots, CopiesOnTheWay, AllSettled, WhollyIn, NotIn;
    hide HasGen, InHistory, OnTheWay;
    var clear;
    ks, clear := HistoryWhole(states, actions, i);
    RunCrash(states, actions, i, img);
    if !RecoversTo(states, actions, i, img, History(states, i)) {
      ks := AddOnTheWay(states, actions, i, ks, clear);
    }
    forall h: nat ensures WhollyIn(states, actions, ks, h) || NotIn(states, actions, ks, h) {
      HandleWhole(states, actions, i, ks, h);
    }
  }
}
