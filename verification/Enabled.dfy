/**
 Which steps can be taken: in every state the invariant allows, each call of a handle whose
 C preconditions hold goes through, and the commit thread stands still in four cases only.
 So the runs the other theorems speak of leave out none of the program's.
 */
module Enabled {
  import opened Bytes
  import opened DiskFormat
  import opened Device
  import opened LogFormat
  import opened CrashSafety
  import opened Pipeline
  import opened PipelineJournal
  import opened PipelineInv
  import opened Reclaim
  import opened Overtaken

  lemma InvShaped(s: Sys)
    requires Inv(s)
    ensures JournalInv(s) && Shaped(s) && HandlesOk(s) && StagingOk(s)
  {
    hide PhysOf, JournalOk, Tiles, Shaped, HandlesOk, StagingOk, DirectOk, Unshared, NodesHome, BufsOlder, HomeOlder;
  }

  /** A handle starts whenever the thread is not waiting for the running ones, whatever else it does. */
  lemma StartGoes(s: Sys, h: nat) returns (t: Sys)
    requires Inv(s) && !s.pc.Freezing? && h !in s.born
    ensures Step(s, Start(h), t)
    ensures t.handles == s.handles[h := Handle(s.gen, {})] && t.born == s.born[h := s.gen]
    ensures t == s.(handles := t.handles, born := t.born)
  {
    hide PhysOf, Inv, Shaped, StagingOk, JournalInv;
    InvShaped(s);
    t := s.(handles := s.handles[h := Handle(s.gen, {})], born := s.born[h := s.gen]);
  }

  lemma StageIsStep(s: Sys, h: nat, b: u64)
    requires Shaped(s) && h in s.handles && IsHome(s.g, |s.disk.base|, b)
    ensures Step(s, Stage(h, b), StageStep(s, h, b))
  {
    hide PhysOf, Shaped, StageStep;
  }

  /**
   Any live handle may stage any home block. One that is staged, by whichever handle, keeps its
   buffer, and no buffer changes; one that is not gets a new buffer, seeded from below.
   */
  lemma StageGoes(s: Sys, h: nat, b: u64) returns (t: Sys)
    requires Inv(s) && h in s.handles && IsHome(s.g, |s.disk.base|, b)
    ensures Shaped(s) && Step(s, Stage(h, b), t)
    ensures b in t.staged && t.staged[b] < |t.bufs| && t.staged[b] in t.handles[h].bufs
    ensures b in s.staged ==> t.staged == s.staged && t.bufs == s.bufs
    ensures b !in s.staged ==> t.staged == s.staged[b := |s.bufs|] && t.bufs == s.bufs + [Seed(s, b)]
    ensures t.handles == s.handles[h := Handle(s.handles[h].gen, s.handles[h].bufs + {t.staged[b]})]
    ensures t == s.(bufs := t.bufs, staged := t.staged, handles := t.handles)
  {
    hide PhysOf, Inv, Shaped, HandlesOk, JournalInv, Step, Seed;
    InvShaped(s);
    StageIsStep(s, h, b);
    StagedBuf(s, b);
    t := StageStep(s, h, b);
    if b in s.staged {
      assert s.staged[b := s.staged[b]] == s.staged;
    }
  }

  lemma StagedBuf(s: Sys, b: u64)
    requires StagingOk(s)
    ensures b in s.staged ==> s.staged[b] < |s.bufs|
  {
    hide PhysOf, Taken;
  }

  /** A handle may write any buffer it has been given, as often as it likes. */
  lemma FillGoes(s: Sys, h: nat, buf: nat, data: Block) returns (t: Sys)
    requires Inv(s) && h in s.handles && buf in s.handles[h].bufs && Older(data, s.next)
    ensures Step(s, Fill(h, buf, data), t)
    ensures buf < |s.bufs| && t == s.(bufs := s.bufs[buf := data])
  {
    hide PhysOf, Inv, Shaped, JournalInv, Older, Taken;
    InvShaped(s);
    HeldInside(s, h, buf);
    t := s.(bufs := s.bufs[buf := data]);
  }

  lemma HeldInside(s: Sys, h: nat, buf: nat)
    requires HandlesOk(s) && StagingOk(s) && h in s.handles && buf in s.handles[h].bufs
    ensures buf < |s.bufs|
  {
    hide PhysOf, Taken;
    assert HandleOk(s, h);
    var b :| b in s.staged && s.staged[b] == buf;
  }

  /** In ordered mode a live handle may write any home block at once. */
  lemma WriteDirectGoes(s: Sys, h: nat, b: u64, data: Block) returns (t: Sys)
    requires Inv(s) && s.ordered && h in s.handles && IsHome(s.g, |s.disk.base|, b) && Older(data, s.next)
    ensures Step(s, WriteDirect(h, b, data), t)
    ensures t == s.(disk := Do(s.disk, Write(b, data)), direct := s.direct + [|s.disk.log|])
  {
    hide PhysOf, Inv, Shaped, HandlesOk, StagingOk, JournalInv, Older;
    InvShaped(s);
    t := s.(disk := Do(s.disk, Write(b, data)), direct := s.direct + [|s.disk.log|]);
  }

  /** A live handle may stop, the thread waiting for it or not. */
  lemma StopGoes(s: Sys, h: nat) returns (t: Sys)
    requires Inv(s) && h in s.handles
    ensures Step(s, Stop(h), t) && t == s.(handles := s.handles - {h})
  {
    hide PhysOf, Inv, Shaped, HandlesOk, StagingOk, JournalInv, Step;
    InvShaped(s);
    StopIsStep(s, h);
    t := s.(handles := s.handles - {h});
  }

  /** A sync may be called at any time; it waits for the number running then. */
  lemma SyncGoes(s: Sys, c: nat) returns (t: Sys)
    requires Inv(s) && c !in s.syncs
    ensures Step(s, Sync(c), t) && t == s.(requested := true, syncs := s.syncs[c := s.running])
  {
    hide PhysOf, Inv, Shaped, HandlesOk, StagingOk, JournalInv, Step;
    InvShaped(s);
    SyncIsStep(s, c);
    t := s.(requested := true, syncs := s.syncs[c := s.running]);
  }

  /** It may return once that number is completed, or on shutdown, and not before. */
  lemma ReturnExact(s: Sys, c: nat)
    requires Inv(s) && c in s.syncs
    ensures (exists t :: Step(s, Return(c), t)) <==> s.syncs[c] <= s.completed || s.shutdown
    ensures forall t :: Step(s, Return(c), t) ==> t == s.(syncs := s.syncs - {c})
  {
    hide PhysOf, Inv, Shaped, HandlesOk, StagingOk, JournalInv;
    InvShaped(s);
    if s.syncs[c] <= s.completed || s.shutdown {
      assert Step(s, Return(c), s.(syncs := s.syncs - {c}));
    }
  }

  lemma ShutdownGoes(s: Sys) returns (t: Sys)
    requires Inv(s)
    ensures Step(s, Shutdown, t) && t == s.(shutdown := true)
  {
    hide PhysOf, Inv, Shaped, HandlesOk, StagingOk, JournalInv;
    InvShaped(s);
    t := s.(shutdown := true);
  }

  // ---- the thread ----

  /** Between turns, with nothing to take and nobody asking. */
  predicate Idle(s: Sys) {
    s.pc.Waiting? && s.staged == map[] && !s.requested && !s.shutdown
  }

  /** A commit that has its room, and no number or offset left for it. */
  predicate OutOfNumbers(s: Sys) {
    && s.pc.Reclaiming? && |s.pc.nodes| <= MAX_TAGS && |s.pc.nodes| + 2 <= FreeSpace(s.g.maxlen, s.head, s.tail)
    && (s.next + 1 >= U64 || s.head + |s.pc.nodes| + 2 >= EMPTY)
  }

  predicate Stuck(s: Sys) {
    s.pc.Stopped? || (s.pc.Freezing? && s.handles != map[]) || Idle(s) || OutOfNumbers(s)
  }

  lemma WaitGoes(s: Sys) returns (t: Sys)
    requires Shaped(s) && s.pc.Waiting? && !Idle(s)
    ensures Step(s, Tick([]), t)
  {
    hide PhysOf, Shaped;
    t := if s.shutdown then s.(pc := Draining) else s.(freezing := true, pc := Freezing);
  }

  /** The snapshot may list the table in any order. */
  lemma FreezeGoes(s: Sys, nodes: seq<Node>) returns (t: Sys)
    requires Shaped(s) && s.pc.Freezing? && s.handles == map[] && Flattens(nodes, s.staged)
    ensures Step(s, Tick(nodes), t)
    ensures t == s.(staged := map[], direct := [], requested := false, freezing := false, gen := s.gen + 1,
                    pc := Forcing(nodes, s.direct))
  {
    hide PhysOf, Shaped, Step, Flattens;
    t := s.(staged := map[], direct := [], requested := false, freezing := false, gen := s.gen + 1,
            pc := Forcing(nodes, s.direct));
    FreezeIsStep(s, nodes, t);
  }

  lemma ReclaimMoves(s: Sys) returns (t: Sys)
    requires Shaped(s) && s.pc.Reclaiming? && !OutOfNumbers(s)
    ensures Step(s, Tick([]), t)
  {
    hide PhysOf, Shaped, PopOldest, GivenUp, FreeSpace;
    var needed, free := SpaceNeeded(|s.pc.nodes|, 0), FreeSpace(s.g.maxlen, s.head, s.tail);
    t := if free < needed && s.ckpt != [] then PopOldest(s, ToReclaim(s.pc.nodes, s.pc.direct))
         else if needed == 0 || needed > free then GivenUp(s)
         else s.(pc := Committing(s.pc.nodes, s.pc.direct, 0));
  }

  lemma CheckpointMoves(s: Sys) returns (t: Sys)
    requires Shaped(s) && s.pc.Checkpointing?
    ensures Step(s, Tick([]), t)
  {
    hide PhysOf, Shaped, CheckpointScript, NewTail, Resumed;
    t := if s.pc.done < |CheckpointScript(s)| then
           s.(disk := Do(s.disk, CheckpointScript(s)[s.pc.done]),
              pc := Checkpointing(s.pc.txn, s.pc.done + 1, s.pc.resume))
         else s.(tail := NewTail(s), pc := Resumed(s.pc.resume));
  }

  lemma DrainMoves(s: Sys) returns (t: Sys)
    requires Shaped(s) && (s.pc.Draining? || s.pc.Lagging?)
    ensures Step(s, Tick([]), t)
  {
    hide PhysOf, Shaped, PopOldest;
    t := if s.pc.Draining? then if s.ckpt != [] then PopOldest(s, ToDrain) else s.(pc := Stopped)
         else if |s.ckpt| > CKPT_LAG then PopOldest(s, ToLag) else s.(pc := Waiting);
  }

  lemma TickIsStep(s: Sys, nodes: seq<Node>, t: Sys)
    requires Shaped(s) && TickStep(s, t, nodes)
    ensures Step(s, Tick(nodes), t)
  {
    hide PhysOf, Shaped, TickStep;
  }

  lemma TickGoes(s: Sys) returns (nodes: seq<Node>, t: Sys)
    requires Inv(s) && !Stuck(s)
    ensures Step(s, Tick(nodes), t)
  {
    hide PhysOf, Inv, Shaped, HandlesOk, StagingOk, JournalInv, Step, TickStep, OutOfNumbers, Idle;
    hide ForceTick, CommitTick, Flattens;
    InvShaped(s);
    nodes := [];
    match s.pc {
      case Waiting => t := WaitGoes(s);
      case Freezing =>
        nodes := SomeOrder(s.staged);
        t := FreezeGoes(s, nodes);
      case Forcing(_, _) =>
        t := ForceGoes(s);
        IsForce(s, t);
        TickIsStep(s, [], t);
      case Reclaiming(_, _) => t := ReclaimMoves(s);
      case Committing(_, _, _) =>
        CommittingSmall(s);
        t := CommitGoes(s);
        IsCommitStep(s, t);
        TickIsStep(s, [], t);
      case Checkpointing(_, _, _) => t := CheckpointMoves(s);
      case _ => t := DrainMoves(s);
    }
  }

  lemma StuckStays(s: Sys, nodes: seq<Node>, t: Sys)
    requires Stuck(s)
    ensures !Step(s, Tick(nodes), t)
  {
    hide PhysOf, Shaped, Flattens, FreeSpace, PopOldest, GivenUp;
  }

  /**
   The thread can go on except when it has stopped, when it waits for live handles, when it
   has nothing to do, and when a commit that fits has run out of numbers or offsets.
   */
  lemma TickExact(s: Sys)
    requires Inv(s)
    ensures (exists nodes, t :: Step(s, Tick(nodes), t)) <==> !Stuck(s)
  {
    hide PhysOf, Inv, Step, Stuck;
    if Stuck(s) {
      forall nodes, t ensures !Step(s, Tick(nodes), t) {
        StuckStays(s, nodes, t);
      }
    } else {
      var nodes, t := TickGoes(s);
      assert Step(s, Tick(nodes), t);
    }
  }

  // ---- one outcome ----

  lemma OneTickOutcome(s: Sys, nodes: seq<Node>, t: Sys, u: Sys)
    requires Shaped(s) && TickStep(s, t, nodes) && TickStep(s, u, nodes)
    ensures t == u
  {
    hide PhysOf, Shaped, Flattens, CommitScript, CheckpointScript, FreeSpace, PopOldest, GivenUp, Published, Resumed;
  }

  /** Apart from the order of a snapshot nothing is left open: a step has one outcome. */
  lemma OneOutcome(s: Sys, a: Action, t: Sys, u: Sys)
    requires Step(s, a, t) && Step(s, a, u)
    ensures t == u
  {
    hide PhysOf, Shaped, TickStep, StageStep, Older;
    if a.Tick? {
      OneTickOutcome(s, a.nodes, t, u);
    }
  }
}
