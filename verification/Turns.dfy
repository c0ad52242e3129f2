/**
 A whole turn of the commit thread with nothing in between. Left to itself the step system
 issues exactly the operations, in the same order, that the class TxnManager is proved to
 issue: the transactions that have to make room, the commit, the ones beyond the lag.
 */
module Turns {
  import opened Bytes
  import opened DiskFormat
  import opened Device
  import opened LogFormat
  import opened CrashSafety
  import opened Checkpoint
  import opened Pipeline
  import opened PipelineJournal
  import opened PipelineInv
  import opened Reclaim
  import opened Overtaken
  import opened Enabled
  import M = TxnManager

  // ---- runs of the thread alone ----

  ghost predicate TicksOnly(states: seq<Sys>, actions: seq<Action>, s: Sys, t: Sys) {
    && IsRun(states, actions) && states[0] == s && states[|actions|] == t
    && forall i :: 0 <= i < |actions| ==> actions[i].Tick?
  }

  /** A run of the thread alone leads from s to t. */
  ghost predicate Reaches(s: Sys, t: Sys) {
    exists states, actions :: TicksOnly(states, actions, s, t)
  }

  lemma ReachesSelf(s: Sys)
    ensures Reaches(s, s)
  {
    assert TicksOnly([s], [], s, s);
  }

  lemma ReachesOn(s: Sys, m: Sys, nodes: seq<Node>, t: Sys)
    requires Reaches(s, m) && Inv(m) && Step(m, Tick(nodes), t)
    ensures Reaches(s, t) && Inv(t)
  {
    hide Step, Inv;
    InvStep(m, Tick(nodes), t);
    var states, actions :| TicksOnly(states, actions, s, m);
    var more, acts := states + [t], actions + [Tick(nodes)];
    forall i | 0 <= i < |acts| ensures Step(more[i], acts[i], more[i + 1]) {
      assert i < |actions| ==> Step(states[i], actions[i], states[i + 1]);
    }
    assert TicksOnly(more, acts, s, t);
  }

  lemma RunCons(d: Disk, ops: seq<Op>, i: nat)
    requires i < |ops|
    ensures Run(Do(d, ops[i]), ops[i + 1..]) == Run(d, ops[i..])
  {
    assert ops[i..] == [ops[i]] + ops[i + 1..];
    assert d.log + [ops[i]] + ops[i + 1..] == d.log + ops[i..];
  }

  lemma RunNone(d: Disk)
    ensures Run(d, []) == d
  {
    assert d.log + [] == d.log;
  }

  // ---- one script ----

  lemma NextCheckpointOp(s: Sys) returns (t: Sys)
    requires Shaped(s) && s.pc.Checkpointing? && s.pc.done < |CheckpointScript(s)|
    ensures Step(s, Tick([]), t) && Shaped(t)
    ensures t == s.(disk := Do(s.disk, CheckpointScript(s)[s.pc.done]),
                    pc := Checkpointing(s.pc.txn, s.pc.done + 1, s.pc.resume))
    ensures CheckpointScript(t) == CheckpointScript(s) && NewTail(t) == NewTail(s)
  {
    hide PhysOf, Fits, CheckpointOps;
    t := s.(disk := Do(s.disk, CheckpointScript(s)[s.pc.done]),
            pc := Checkpointing(s.pc.txn, s.pc.done + 1, s.pc.resume));
  }

  lemma EndCheckpoint(s: Sys) returns (t: Sys)
    requires Shaped(s) && s.pc.Checkpointing? && s.pc.done >= |CheckpointScript(s)|
    ensures Step(s, Tick([]), t) && t == s.(tail := NewTail(s), pc := Resumed(s.pc.resume))
  {
    hide PhysOf, Shaped, CheckpointScript, NewTail, Resumed;
    t := s.(tail := NewTail(s), pc := Resumed(s.pc.resume));
  }

  /** A checkpoint begun is finished: the rest of its script, then the tail. */
  lemma {:induction false} CheckpointRun(s0: Sys, s: Sys) returns (t: Sys)
    requires Reaches(s0, s) && Inv(s) && Shaped(s) && s.pc.Checkpointing? && s.pc.done <= |CheckpointScript(s)|
    ensures Reaches(s0, t) && Inv(t)
    ensures t == s.(disk := Run(s.disk, CheckpointScript(s)[s.pc.done..]), tail := NewTail(s),
                    pc := Resumed(s.pc.resume))
    decreases |CheckpointScript(s)| - s.pc.done
  {
    hide PhysOf, Inv, Shaped, CheckpointScript, NewTail, Resumed, Step, Reaches;
    var script := CheckpointScript(s);
    if s.pc.done < |script| {
      var m := NextCheckpointOp(s);
      ReachesOn(s0, s, [], m);
      t := CheckpointRun(s0, m);
      RunCons(s.disk, script, s.pc.done);
    } else {
      t := EndCheckpoint(s);
      ReachesOn(s0, s, [], t);
      RunNone(s.disk);
    }
  }

  lemma NextCommitOp(s: Sys) returns (t: Sys)
    requires Shaped(s) && s.pc.Committing? && s.next < U64 && |s.pc.nodes| <= MAX_TAGS
    requires s.pc.done < |CommitScript(s)|
    ensures Step(s, Tick([]), t) && Shaped(t)
    ensures t == s.(disk := Do(s.disk, CommitScript(s)[s.pc.done]),
                    pc := Committing(s.pc.nodes, s.pc.direct, s.pc.done + 1))
    ensures CommitScript(t) == CommitScript(s)
    ensures Published(t) == Published(s).(disk := t.disk)
  {
    hide PhysOf, Fits, CommitOps;
    t := s.(disk := Do(s.disk, CommitScript(s)[s.pc.done]), pc := Committing(s.pc.nodes, s.pc.direct, s.pc.done + 1));
  }

  lemma EndCommit(s: Sys) returns (t: Sys)
    requires Shaped(s) && s.pc.Committing? && s.next < U64 && |s.pc.nodes| <= MAX_TAGS
    requires s.pc.done >= |CommitScript(s)|
    ensures Step(s, Tick([]), t) && t == Published(s)
  {
    hide PhysOf, Shaped, CommitScript, Published;
    t := Published(s);
  }

  lemma PublishedDisk(s: Sys)
    requires s.pc.Committing? && s.next < U64
    ensures Published(s).disk == s.disk
  {}

  lemma {:induction false} CommitRun(s0: Sys, s: Sys) returns (t: Sys)
    requires Reaches(s0, s) && Inv(s) && Shaped(s) && s.pc.Committing? && s.next < U64 && |s.pc.nodes| <= MAX_TAGS
    requires s.pc.done <= |CommitScript(s)|
    ensures Reaches(s0, t) && Inv(t)
    ensures t == Published(s).(disk := Run(s.disk, CommitScript(s)[s.pc.done..]))
    decreases |CommitScript(s)| - s.pc.done
  {
    hide PhysOf, Inv, Shaped, CommitScript, Published, Step, Reaches;
    var script := CommitScript(s);
    if s.pc.done < |script| {
      var m := NextCommitOp(s);
      ReachesOn(s0, s, [], m);
      t := CommitRun(s0, m);
      RunCons(s.disk, script, s.pc.done);
    } else {
      t := EndCommit(s);
      ReachesOn(s0, s, [], t);
      RunNone(s.disk);
      PublishedDisk(s);
    }
  }

  // ---- transactions going home ----

  /** Where the listed transactions begin in the log. */
  function PlacesOf(list: seq<Committed>): (xs: seq<nat>)
    ensures |xs| == |list| && forall i :: 0 <= i < |xs| ==> xs[i] == list[i].descOffset
  {
    seq(|list|, i requires 0 <= i < |list| => list[i].descOffset)
  }

  /** The operations by which the first k listed transactions go home. */
  function HomeOps(s: Sys, list: seq<Committed>, k: nat): seq<Op>
    requires AllBufsIn(list, |s.bufs|) && k <= |list|
    requires s.next < U64
  {
    M.AllHome(s.g, TxnsOf(s.bufs, list), PlacesOf(list), k, s.head, s.next)
  }

  /** The first i transactions of the list have gone home, from disk d on. */
  ghost predicate GoneHome(s: Sys, list: seq<Committed>, d: Disk, i: nat) {
    && i <= |list| && AllBufsIn(list, |s.bufs|) && s.next < U64
    && s.ckpt == list[i..] && s.disk == Run(d, HomeOps(s, list, i))
  }

  lemma NoneGone(s: Sys)
    requires Inv(s)
    ensures GoneHome(s, s.ckpt, s.disk, 0)
  {
    hide PhysOf, JournalOk, Tiles, HandlesOk, StagingOk, DirectOk, Unshared, NodesHome, BufsOlder, HomeOlder;
    RunNone(s.disk);
  }

  /** The script of a checkpoint just begun is the class's for that transaction. */
  lemma ScriptIsOneHome(s: Sys, list: seq<Committed>, i: nat, resume: Resume)
    requires Shaped(s) && s.ckpt != [] && i < |list| && s.ckpt == list[i..] && s.next < U64
    requires AllBufsIn(list, |s.bufs|)
    requires Shaped(PopOldest(s, resume))
    ensures CheckpointScript(PopOldest(s, resume))
         == M.OneHome(s.g, TxnsOf(s.bufs, list), PlacesOf(list), i, s.head, s.next)
  {
    hide PhysOf, Fits, CheckpointOps;
    assert s.ckpt[1..] == list[i + 1..];
    assert TxnsOf(s.bufs, list)[i].copies == CopiesOf(s.bufs, list[i].nodes);
  }

  lemma OneMoreGone(s: Sys, t: Sys, list: seq<Committed>, d: Disk, i: nat)
    requires GoneHome(s, list, d, i) && i < |list|
    requires t == s.(disk := t.disk, tail := t.tail, ckpt := s.ckpt[1..])
    requires t.disk == Run(s.disk, M.OneHome(s.g, TxnsOf(s.bufs, list), PlacesOf(list), i, s.head, s.next))
    ensures GoneHome(t, list, d, i + 1)
  {
    hide CheckpointOps;
    M.RunConcat(d, HomeOps(s, list, i), M.OneHome(s.g, TxnsOf(s.bufs, list), PlacesOf(list), i, s.head, s.next));
  }

  /** The next transaction of the list goes home, and the thread is back where it was. */
  lemma HomeNext(s0: Sys, s: Sys, list: seq<Committed>, d: Disk, i: nat, resume: Resume) returns (t: Sys)
    requires Reaches(s0, s) && Inv(s) && GoneHome(s, list, d, i) && s.ckpt != [] && Resumed(resume) == s.pc
    requires Step(s, Tick([]), PopOldest(s, resume))
    ensures Reaches(s0, t) && Inv(t) && i < |list| && GoneHome(t, list, d, i + 1)
    ensures t == s.(disk := t.disk, tail := t.tail, ckpt := s.ckpt[1..])
  {
    hide PhysOf, Inv, Shaped, CheckpointScript, NewTail, Resumed, Step, Reaches, M.OneHome, HomeOps;
    var m := PopOldest(s, resume);
    ReachesOn(s0, s, [], m);
    InvShaped(s);
    InvShaped(m);
    t := CheckpointRun(s0, m);
    ScriptIsOneHome(s, list, i, resume);
    assert CheckpointScript(m)[0..] == CheckpointScript(m);
    OneMoreGone(s, t, list, d, i);
  }

  /** As few of the oldest transactions as it takes to have the room needed, or all of them. */
  ghost predicate Fewest(list: seq<Committed>, k: nat, maxlen: nat, needed: nat) {
    && k <= |list|
    && (k == 0 || maxlen - Span(list[k - 1..]) < needed)
    && (k == |list| || maxlen - Span(list[k..]) >= needed)
  }

  lemma ListSpace(s: Sys)
    requires Inv(s) && !s.pc.Checkpointing?
    ensures FreeSpace(s.g.maxlen, s.head, s.tail) == s.g.maxlen - Span(s.ckpt)
    ensures s.tail == s.head <==> s.ckpt == []
  {
    hide PhysOf, JournalInv, HandlesOk, StagingOk, DirectOk, Unshared, NodesHome, BufsOlder, HomeOlder, Span;
    SpaceTaken(s);
    assert LiveList(s) == s.ckpt;
  }

  lemma ReclaimPopIsStep(s: Sys)
    requires Shaped(s) && s.pc.Reclaiming? && MustReclaim(s)
    ensures Step(s, Tick([]), PopOldest(s, ToReclaim(s.pc.nodes, s.pc.direct)))
    ensures Resumed(ToReclaim(s.pc.nodes, s.pc.direct)) == s.pc
  {
    hide PhysOf, Shaped, PopOldest, ReclaimTick;
    PopIsReclaim(s, PopOldest(s, ToReclaim(s.pc.nodes, s.pc.direct)));
  }

  /** The loop's test, in terms of what is left of the list. */
  lemma LoopTest(s: Sys, list: seq<Committed>, d: Disk, i: nat)
    requires Inv(s) && s.pc.Reclaiming? && GoneHome(s, list, d, i)
    ensures i <= |list| && |s.ckpt| == |list| - i
    ensures MustReclaim(s) <==> i < |list| && s.g.maxlen - Span(list[i..]) < SpaceNeeded(|s.pc.nodes|, 0)
  {
    hide PhysOf, Inv, HomeOps, Span, SpaceNeeded, FreeSpace;
    ListSpace(s);
  }

  /** The reclaim loop. */
  lemma {:induction false} ReclaimRun(s0: Sys, s: Sys, list: seq<Committed>, d: Disk, i: nat) returns (k: nat, t: Sys)
    requires Reaches(s0, s) && Inv(s) && s.pc.Reclaiming? && GoneHome(s, list, d, i)
    requires i == 0 || s.g.maxlen - Span(list[i - 1..]) < SpaceNeeded(|s.pc.nodes|, 0)
    ensures Reaches(s0, t) && Inv(t) && GoneHome(t, list, d, k)
    ensures t == s.(disk := t.disk, tail := t.tail, ckpt := t.ckpt)
    ensures !MustReclaim(t) && Fewest(list, k, s.g.maxlen, SpaceNeeded(|s.pc.nodes|, 0))
    decreases |s.ckpt|
  {
    hide PhysOf, Inv, Shaped, Step, Reaches, GoneHome, MustReclaim, Span, SpaceNeeded, PopOldest, Resumed;
    LoopTest(s, list, d, i);
    InvShaped(s);
    if MustReclaim(s) {
      ReclaimPopIsStep(s);
      var m := HomeNext(s0, s, list, d, i, ToReclaim(s.pc.nodes, s.pc.direct));
      k, t := ReclaimRun(s0, m, list, d, i + 1);
    } else {
      k, t := i, s;
    }
  }

  lemma LagPopIsStep(s: Sys)
    requires Shaped(s) && s.pc.Lagging? && |s.ckpt| > CKPT_LAG
    ensures Step(s, Tick([]), PopOldest(s, ToLag)) && Resumed(ToLag) == s.pc
  {
    hide PhysOf, Shaped, PopOldest;
  }

  lemma LagEndIsStep(s: Sys)
    requires Shaped(s) && s.pc.Lagging? && |s.ckpt| <= CKPT_LAG
    ensures Step(s, Tick([]), s.(pc := Waiting))
  {
    hide PhysOf, Shaped, PopOldest;
  }

  /** The loop that keeps the list short, and the end of the turn. */
  lemma {:induction false} LagRun(s0: Sys, s: Sys, list: seq<Committed>, d: Disk, i: nat) returns (t: Sys)
    requires Reaches(s0, s) && Inv(s) && s.pc.Lagging? && GoneHome(s, list, d, i)
    requires i == 0 || |list| - i >= CKPT_LAG
    ensures Reaches(s0, t) && Inv(t) && GoneHome(t, list, d, M.Beyond(|list|))
    ensures t == s.(disk := t.disk, tail := t.tail, ckpt := t.ckpt, pc := Waiting)
    decreases |s.ckpt|
  {
    hide PhysOf, Inv, Shaped, Step, Reaches, HomeOps, PopOldest, Resumed;
    InvShaped(s);
    if |s.ckpt| > CKPT_LAG {
      LagPopIsStep(s);
      var m := HomeNext(s0, s, list, d, i, ToLag);
      t := LagRun(s0, m, list, d, i + 1);
    } else {
      LagEndIsStep(s);
      t := s.(pc := Waiting);
      ReachesOn(s0, s, [], t);
      SameGone(s, t, list, d, i);
    }
  }

  lemma SameGone(s: Sys, t: Sys, list: seq<Committed>, d: Disk, i: nat)
    requires GoneHome(s, list, d, i) && t == s.(pc := t.pc)
    ensures GoneHome(t, list, d, i)
  {
    hide M.AllHome;
  }

  // ---- the turn ----

  /** The device once the data written directly in the generation is durable. */
  function Forced(s: Sys): Disk {
    if s.ordered && s.direct != [] then Do(s.disk, Flush) else s.disk
  }

  /** What is listed once the snapshot has been committed, or given up. */
  function Listing(s: Sys, nodes: seq<Node>, k: nat): (list: seq<Committed>)
    requires k <= |s.ckpt| && s.next < U64
  {
    s.ckpt[k..] + if M.FitsLog(s.g, |nodes|) then [Committed(s.next, s.head, nodes, s.direct)] else []
  }

  function HeadAfter(s: Sys, nodes: seq<Node>): nat {
    if M.FitsLog(s.g, |nodes|) then s.head + |nodes| + 2 else s.head
  }

  function NextAfter(s: Sys, nodes: seq<Node>): nat {
    if M.FitsLog(s.g, |nodes|) then s.next + 1 else s.next
  }

  function CommitPart(s: Sys, nodes: seq<Node>, k: nat): seq<Op>
    requires BufsIn(nodes, |s.bufs|) && s.next < U64
  {
    if M.FitsLog(s.g, |nodes|) then CommitOps(s.g, s.head, k == |s.ckpt|, TxnOf(s.bufs, s.next, nodes)) else []
  }

  /** All that the state is after a turn that starts in s and takes nodes. */
  ghost predicate TurnEnds(s: Sys, nodes: seq<Node>, k: nat, t: Sys) {
    && k <= |s.ckpt| && s.next < U64 && t.next < U64 && BufsIn(nodes, |s.bufs|) && AllBufsIn(s.ckpt, |s.bufs|)
    && AllBufsIn(Listing(s, nodes, k), |s.bufs|)
    && (if nodes == [] then k == 0 else Fewest(s.ckpt, k, s.g.maxlen, SpaceNeeded(|nodes|, 0)))
    && (var list := Listing(s, nodes, k);
        && t.ckpt == list[M.Beyond(|list|)..]
        && t.disk == Run(Run(Run(Forced(s), HomeOps(s, s.ckpt, k)), CommitPart(s, nodes, k)),
                         M.AllHome(s.g, TxnsOf(s.bufs, list), PlacesOf(list), M.Beyond(|list|), t.head, t.next)))
    && t == s.(disk := t.disk, ckpt := t.ckpt, tail := t.tail, head := HeadAfter(s, nodes), next := NextAfter(s, nodes),
               staged := map[], direct := [], gen := s.gen + 1, freezing := false, requested := false,
               completed := s.running, running := if nodes == [] then s.running else NextAfter(s, nodes),
               pc := Waiting)
  }

  /** The reclaim loop leaves exactly what does not fit the log to be refused. */
  lemma RefusedIsUnfit(s: Sys)
    requires Inv(s) && s.pc.Reclaiming? && !MustReclaim(s) && |s.pc.nodes| > 0
    ensures Refused(s) <==> !M.FitsLog(s.g, |s.pc.nodes|)
  {
    hide PhysOf, HandlesOk, StagingOk, DirectOk, Unshared, NodesHome, BufsOlder, HomeOlder, JournalInv, FreeSpace;
    ShortOfSpace(s);
  }

  lemma GiveUpIsStep(s: Sys)
    requires Shaped(s) && s.pc.Reclaiming? && !MustReclaim(s) && Refused(s)
    ensures Step(s, Tick([]), GivenUp(s))
  {
    hide PhysOf, Shaped, GivenUp, ReclaimTick;
    GiveUpIsReclaim(s, GivenUp(s));
  }

  lemma AheadIsStep(s: Sys)
    requires Shaped(s) && s.pc.Reclaiming? && !MustReclaim(s) && !Refused(s) && HasNumber(s)
    ensures Step(s, Tick([]), s.(pc := Committing(s.pc.nodes, s.pc.direct, 0)))
  {
    hide PhysOf, Shaped, ReclaimTick;
    AheadIsReclaim(s, s.(pc := Committing(s.pc.nodes, s.pc.direct, 0)));
  }

  lemma CommitIs(s: Sys)
    requires Shaped(s) && s.pc.Committing? && s.next < U64 && |s.pc.nodes| <= MAX_TAGS
    ensures BufsIn(s.pc.nodes, |s.bufs|)
    ensures s.g.maxlen > 0
    ensures CommitScript(s) == CommitOps(s.g, s.head, s.tail == s.head, TxnOf(s.bufs, s.next, s.pc.nodes))
  {
    hide PhysOf, CommitOps;
  }

  lemma PublishedIs(s: Sys, d: Disk)
    requires s.pc.Committing? && s.next < U64
    ensures Published(s).(disk := d)
         == s.(disk := d, head := s.head + |s.pc.nodes| + 2, next := s.next + 1, running := s.next + 1,
               completed := s.running, ckpt := s.ckpt + [Committed(s.next, s.head, s.pc.nodes, s.pc.direct)],
               pc := Lagging)
  {}

  /** A commit just begun is finished, published and listed. */
  lemma CommitAll(s0: Sys, s: Sys) returns (t: Sys)
    requires Reaches(s0, s) && Inv(s) && s.pc.Committing? && s.pc.done == 0
    ensures Reaches(s0, t) && Inv(t) && s.next < U64 && |s.pc.nodes| <= MAX_TAGS && BufsIn(s.pc.nodes, |s.bufs|)
    ensures s.g.maxlen > 0
    ensures t == s.(disk := Run(s.disk, CommitOps(s.g, s.head, s.tail == s.head, TxnOf(s.bufs, s.next, s.pc.nodes))),
                    head := s.head + |s.pc.nodes| + 2, next := s.next + 1, running := s.next + 1,
                    completed := s.running, ckpt := s.ckpt + [Committed(s.next, s.head, s.pc.nodes, s.pc.direct)],
                    pc := Lagging)
  {
    hide PhysOf, Inv, Shaped, Reaches, CommitOps, CommitScript, Published, TxnOf, BufsIn;
    InvShaped(s);
    CommittingSmall(s);
    t := CommitRun(s0, s);
    CommitIs(s);
    assert CommitScript(s)[0..] == CommitScript(s);
    PublishedIs(s, t.disk);
  }

  /** The commit, once it is known to fit. */
  lemma AheadRun(s0: Sys, s: Sys) returns (t: Sys)
    requires Reaches(s0, s) && Inv(s) && s.pc.Reclaiming? && !MustReclaim(s) && !Refused(s) && HasNumber(s)
    ensures Reaches(s0, t) && Inv(t) && BufsIn(s.pc.nodes, |s.bufs|) && SnapshotListed(s, t)
  {
    hide PhysOf, Inv, Shaped, Step, Reaches, CommitOps, MustReclaim, Refused, TxnOf, BufsIn, HasNumber;
    InvShaped(s);
    ListSpace(s);
    AheadIsStep(s);
    var m := s.(pc := Committing(s.pc.nodes, s.pc.direct, 0));
    ReachesOn(s0, s, [], m);
    t := CommitAll(s0, m);
  }

  /** t is s with the snapshot committed and listed. */
  ghost predicate SnapshotListed(s: Sys, t: Sys)
    requires s.pc.Reclaiming? && BufsIn(s.pc.nodes, |s.bufs|)
  {
    && s.next < U64 && |s.pc.nodes| <= MAX_TAGS && s.g.maxlen > 0
    && t == s.(disk := Run(s.disk, CommitOps(s.g, s.head, s.ckpt == [], TxnOf(s.bufs, s.next, s.pc.nodes))),
               head := s.head + |s.pc.nodes| + 2, next := s.next + 1, running := s.next + 1,
               completed := s.running, ckpt := s.ckpt + [Committed(s.next, s.head, s.pc.nodes, s.pc.direct)],
               pc := Lagging)
  }

  /** From the end of the reclaim loop on: the commit, or giving up. */
  lemma CommitOrNot(s0: Sys, s: Sys) returns (t: Sys)
    requires Reaches(s0, s) && Inv(s) && s.pc.Reclaiming? && !MustReclaim(s) && |s.pc.nodes| > 0 && HasNumber(s)
    ensures Reaches(s0, t) && Inv(t) && BufsIn(s.pc.nodes, |s.bufs|)
    ensures if M.FitsLog(s.g, |s.pc.nodes|) then SnapshotListed(s, t)
            else t == s.(completed := s.running, running := s.next, pc := Lagging)
  {
    hide PhysOf, Inv, Shaped, Step, Reaches, MustReclaim, Refused, HasNumber, SnapshotListed, M.FitsLog;
    InvShaped(s);
    RefusedIsUnfit(s);
    ShapedPc(s);
    if Refused(s) {
      GiveUpIsStep(s);
      t := GivenUp(s);
      ReachesOn(s0, s, [], t);
    } else {
      t := AheadRun(s0, s);
    }
  }

  /** The snapshot and the flush behind it. */
  lemma BeginTurn(s: Sys, nodes: seq<Node>) returns (t: Sys)
    requires Inv(s) && s.pc.Freezing? && s.handles == map[] && Flattens(nodes, s.staged)
    ensures Reaches(s, t) && Inv(t)
    ensures t == s.(disk := Forced(s), staged := map[], direct := [], gen := s.gen + 1, freezing := false,
                    requested := false, completed := if nodes == [] then s.running else s.completed,
                    pc := if nodes == [] then Lagging else Reclaiming(nodes, s.direct))
  {
    hide PhysOf, Inv, Shaped, Step, Reaches, Flattens;
    InvShaped(s);
    ReachesSelf(s);
    var f := FreezeGoes(s, nodes);
    ReachesOn(s, s, nodes, f);
    InvShaped(f);
    t := f.(disk := Forced(s), completed := if nodes == [] then s.running else s.completed,
            pc := if nodes == [] then Lagging else Reclaiming(nodes, s.direct));
    ForceIsStep(f, t);
    ReachesOn(s, f, [], t);
  }

  lemma ForceIsStep(s: Sys, t: Sys)
    requires Shaped(s) && s.pc.Forcing? && ForceTick(s, t)
    ensures Step(s, Tick([]), t)
  {
    hide PhysOf, Shaped, ForceTick;
  }

  lemma NoHomeOps(s: Sys, list: seq<Committed>)
    requires AllBufsIn(list, |s.bufs|) && s.next < U64
    ensures HomeOps(s, list, 0) == []
  {}

  lemma EndsEmpty(s: Sys, m: Sys, t: Sys)
    requires Inv(s) && Inv(m) && s.ckpt == m.ckpt && GoneHome(t, m.ckpt, m.disk, M.Beyond(|m.ckpt|))
    requires m == s.(disk := Forced(s), staged := map[], direct := [], gen := s.gen + 1, freezing := false,
                     requested := false, completed := s.running, pc := Lagging)
    requires t == m.(disk := t.disk, tail := t.tail, ckpt := t.ckpt, pc := Waiting)
    ensures TurnEnds(s, [], 0, t)
  {
    hide PhysOf, Inv, M.AllHome, Forced;
    RunNone(Forced(s));
    NoneGone(m);
    assert s.ckpt[0..] + [] == s.ckpt;
    NoHomeOps(m, m.ckpt);
    NoHomeOps(s, s.ckpt);
  }

  lemma EndsFull(s: Sys, nodes: seq<Node>, m: Sys, k: nat, r: Sys, c: Sys, t: Sys)
    requires nodes != [] && Inv(s) && Inv(c) && s.next < U64 && c.next < U64
    requires m == s.(disk := Forced(s), staged := map[], direct := [], gen := s.gen + 1, freezing := false,
                     requested := false, pc := Reclaiming(nodes, s.direct))
    requires GoneHome(r, s.ckpt, Forced(s), k) && r == m.(disk := r.disk, tail := r.tail, ckpt := r.ckpt)
    requires Fewest(s.ckpt, k, s.g.maxlen, SpaceNeeded(|nodes|, 0)) && BufsIn(nodes, |s.bufs|)
    requires if M.FitsLog(s.g, |nodes|) then SnapshotListed(r, c)
             else c == r.(completed := s.running, running := s.next, pc := Lagging)
    requires GoneHome(t, c.ckpt, c.disk, M.Beyond(|c.ckpt|))
    requires t == c.(disk := t.disk, tail := t.tail, ckpt := t.ckpt, pc := Waiting)
    ensures TurnEnds(s, nodes, k, t)
  {
    hide PhysOf, Inv, M.AllHome, Forced, Fewest, CommitOps, Span, SpaceNeeded, TxnOf;
    RunNone(r.disk);
    assert c.ckpt == Listing(s, nodes, k);
    assert HomeOps(r, s.ckpt, k) == HomeOps(s, s.ckpt, k);
  }

  /** A turn that takes something, from the reclaim loop on. */
  lemma FullTurn(s: Sys, nodes: seq<Node>, m: Sys) returns (k: nat, t: Sys)
    requires nodes != [] && Inv(s) && Inv(m) && HasNumber(s) && Reaches(s, m)
    requires m == s.(disk := Forced(s), staged := map[], direct := [], gen := s.gen + 1, freezing := false,
                     requested := false, pc := Reclaiming(nodes, s.direct))
    ensures Reaches(s, t) && Inv(t) && TurnEnds(s, nodes, k, t) && t.pc == Waiting
  {
    hide PhysOf, Inv, Reaches, GoneHome, Fewest, TurnEnds, Forced, CommitOps, TxnOf, MustReclaim, BufsIn, M.FitsLog;
    NoneGone(m);
    var r;
    k, r := ReclaimRun(s, m, m.ckpt, m.disk, 0);
    var c := CommitOrNot(s, r);
    NoneGone(c);
    t := LagRun(s, c, c.ckpt, c.disk, 0);
    InvNumbers(s);
    InvNumbers(c);
    EndsFull(s, nodes, m, k, r, c, t);
  }

  /**
   From the snapshot on, with numbers left and nobody in between, the thread comes back to
   waiting. The operations issued are the flush of the ordered data, the checkpoints of as few
   of the oldest transactions as make room, the commit if the snapshot fits, the checkpoints of
   those beyond the lag, and no other; nothing else of the state is left open either.
   */
  lemma TurnRuns(s: Sys, nodes: seq<Node>) returns (k: nat, t: Sys)
    requires Inv(s) && s.pc.Freezing? && s.handles == map[] && Flattens(nodes, s.staged) && HasNumber(s)
    ensures Reaches(s, t) && Inv(t) && TurnEnds(s, nodes, k, t) && t.head == t.tail + Span(t.ckpt)
  {
    hide PhysOf, Inv, Reaches, Flattens, GoneHome, TurnEnds, Forced, Span, HasNumber;
    var m := BeginTurn(s, nodes);
    if nodes == [] {
      k := 0;
      NoneGone(m);
      t := LagRun(s, m, m.ckpt, m.disk, 0);
      EndsEmpty(s, m, t);
    } else {
      k, t := FullTurn(s, nodes, m);
    }
    HeadIs(t);
  }

  lemma InvNumbers(s: Sys)
    requires Inv(s)
    ensures s.next < U64
  {
    hide PhysOf, JournalOk, Tiles, Shaped, HandlesOk, StagingOk, DirectOk, Unshared, NodesHome, BufsOlder, HomeOlder;
  }

  lemma HeadIs(s: Sys)
    requires Inv(s) && !s.pc.Checkpointing?
    ensures s.head == s.tail + Span(s.ckpt)
  {
    hide PhysOf, JournalOk, Tiles, Shaped, HandlesOk, StagingOk, DirectOk, Unshared, NodesHome, BufsOlder, HomeOlder;
    assert LiveList(s) == s.ckpt;
  }

  // ---- the class does the same ----

  /** The list, log content, device and cursor of the class are those of the state s with device d. */
  ghost predicate Stands(q: M.Queue, s: Sys, d: Disk) {
    && AllBufsIn(s.ckpt, |s.bufs|) && SameEntries(q.list, s.ckpt)
    && q.txns == TxnsOf(s.bufs, s.ckpt) && q.disk == d && q.head == s.head && q.next == s.next
  }

  ghost predicate SameEntries(a: seq<M.CommittedTxn>, b: seq<Committed>) {
    |a| == |b| && forall i :: 0 <= i < |a| ==>
      a[i].sequence == b[i].sequence && a[i].descOffset == b[i].descOffset && |a[i].nodes| == |b[i].nodes|
  }

  lemma {:induction false} SameSpan(a: seq<M.CommittedTxn>, b: seq<Committed>)
    requires SameEntries(a, b)
    ensures Span(M.Outline(a)) == Span(b)
    decreases |a|
  {
    if a != [] {
      SameSpan(a[1..], b[1..]);
      assert M.Outline(a)[1..] == M.Outline(a[1..]);
    }
  }

  lemma {:induction false} SpanDrops(list: seq<Committed>, i: nat, j: nat)
    requires i <= j <= |list|
    ensures Span(list[j..]) <= Span(list[i..])
    decreases j - i
  {
    if i < j {
      SpanDrops(list, i + 1, j);
      assert list[i..][1..] == list[i + 1..];
    }
  }

  lemma FewestUnique(list: seq<Committed>, k: nat, m: nat, maxlen: nat, needed: nat)
    requires Fewest(list, k, maxlen, needed) && Fewest(list, m, maxlen, needed)
    ensures k == m
  {
    hide Span;
    if k < m {
      SpanDrops(list, k, m - 1);
    } else if m < k {
      SpanDrops(list, m, k - 1);
    }
  }

  /** How many have to go first is the same number for both. */
  lemma SameFirst(g: Geometry, q: M.Queue, taken: seq<M.DirtyBlock>, k: nat, mid: Disk, list: seq<Committed>)
    requires SameEntries(q.list, list) && M.HomeFirst(g, q, taken, k, mid)
    ensures k <= |list| && if taken == [] then k == 0 else Fewest(list, k, g.maxlen, SpaceNeeded(|taken|, 0))
  {
    hide Span, SpaceNeeded, M.WentHome, M.Outline;
    if taken != [] {
      if k > 0 {
        SameSpan(q.list[k - 1..], list[k - 1..]);
      }
      SameSpan(q.list[k..], list[k..]);
    }
  }

  lemma SameTxn(bufs: seq<Block>, nodes: seq<Node>, sequence: u64)
    requires BufsIn(nodes, |bufs|)
    ensures M.J.TxnFor(sequence, CopiesOf(bufs, nodes), []) == TxnOf(bufs, sequence, nodes)
  {}

  /** Left of the list, and what is put behind it, are the same for both. */
  lemma SameListing(q: M.Queue, s: Sys, taken: seq<M.DirtyBlock>, nodes: seq<Node>, k: nat, done: Disk)
    requires Stands(q, s, Forced(s)) && |taken| == |nodes| && k <= |s.ckpt| && BufsIn(nodes, |s.bufs|) && HasNumber(s)
    requires AllBufsIn(Listing(s, nodes, k), |s.bufs|)
    ensures var l := M.Listed(s.g, q, taken, CopiesOf(s.bufs, nodes), k, done);
            var list := Listing(s, nodes, k);
            && SameEntries(l.list, list) && l.txns == TxnsOf(s.bufs, list) && l.disk == done
            && l.head == HeadAfter(s, nodes) && l.next == NextAfter(s, nodes) && M.Places(l.list) == PlacesOf(list)
  {
    hide Forced;
    SameTxn(s.bufs, nodes, q.next);
    var l, list := M.Listed(s.g, q, taken, CopiesOf(s.bufs, nodes), k, done), Listing(s, nodes, k);
    assert l.txns == TxnsOf(s.bufs, list);
    assert M.Places(l.list) == PlacesOf(list);
  }

  lemma SamePlaces(a: seq<M.CommittedTxn>, b: seq<Committed>)
    requires SameEntries(a, b)
    ensures M.Places(a) == PlacesOf(b)
  {}

  lemma SameRest(q: M.Queue, s: Sys, t: Sys, list: seq<Committed>, l: M.Queue, r: M.Queue, m: nat)
    requires SameEntries(l.list, list) && AllBufsIn(list, |s.bufs|) && l.txns == TxnsOf(s.bufs, list) && m <= |list|
    requires t.bufs == s.bufs && t.ckpt == list[m..] && r.list == l.list[m..] && r.txns == l.txns[m..]
    requires r.disk == t.disk && r.head == t.head && r.next == t.next
    ensures Stands(r, t, t.disk)
  {
    assert r.txns == TxnsOf(t.bufs, t.ckpt);
  }

  /**
   Both models of the thread agree on a turn: from the same list, device and cursor, with the
   same content taken, what the class is proved to leave is what the step system comes to.
   */
  lemma TurnsAgree(q: M.Queue, taken: seq<M.DirtyBlock>, r: M.Queue, s: Sys, nodes: seq<Node>, k: nat, t: Sys)
    requires TurnEnds(s, nodes, k, t) && HasNumber(s) && Stands(q, s, Forced(s)) && |taken| == |nodes|
    requires M.Turned(s.g, q, taken, CopiesOf(s.bufs, nodes), r)
    ensures Stands(r, t, t.disk)
  {
    hide PhysOf, Forced, Fewest, M.AllHome, CommitOps, SpaceNeeded, M.HomeFirst, Listing, HasNumber, TxnOf, M.Listed;
    hide M.FitsLog, SameEntries;
    var copies := CopiesOf(s.bufs, nodes);
    var c: nat, mid, done :| M.TurnBy(s.g, q, taken, copies, c, mid, done, r);
    SameFirst(s.g, q, taken, c, mid, s.ckpt);
    if nodes != [] {
      FewestUnique(s.ckpt, k, c, s.g.maxlen, SpaceNeeded(|nodes|, 0));
    }
    MidIs(s, q, taken, k, mid);
    SameTxn(s.bufs, nodes, q.next);
    DoneIs(s, q, taken, nodes, k, mid, done);
    SameLength(q.list, s.ckpt);
    SameListing(q, s, taken, nodes, k, done);
    var l, list := M.Listed(s.g, q, taken, copies, k, done), Listing(s, nodes, k);
    SameLength(l.list, list);
    SameRest(q, s, t, list, l, r, M.Beyond(|list|));
  }

  lemma SameLength(a: seq<M.CommittedTxn>, b: seq<Committed>)
    requires SameEntries(a, b)
    ensures |a| == |b|
  {}

  lemma MidIs(s: Sys, q: M.Queue, taken: seq<M.DirtyBlock>, k: nat, mid: Disk)
    requires Stands(q, s, Forced(s)) && s.next < U64 && M.HomeFirst(s.g, q, taken, k, mid)
    ensures k <= |s.ckpt| && mid == Run(Forced(s), HomeOps(s, s.ckpt, k))
  {
    hide Forced, M.AllHome;
    SamePlaces(q.list, s.ckpt);
  }

  lemma DoneIs(s: Sys, q: M.Queue, taken: seq<M.DirtyBlock>, nodes: seq<Node>, k: nat, mid: Disk, done: Disk)
    requires Stands(q, s, Forced(s)) && |taken| == |nodes| && BufsIn(nodes, |s.bufs|) && k <= |s.ckpt|
    requires M.CommitsAt(s.g, q, taken, CopiesOf(s.bufs, nodes), k, mid, done)
    ensures s.next < U64 && done == Run(mid, CommitPart(s, nodes, k))
  {
    hide Forced, CommitOps;
    RunNone(mid);
    SameTxn(s.bufs, nodes, q.next);
  }
}
