/**
 The lookup window at work: a run in which a block is staged while its committed content is
 in flight. The new buffer starts from the content below the commit, so the next commit puts
 the old content back.
 */
module LostUpdate {
  import opened Bytes
  import opened DiskFormat
  import opened Device
  import opened LogFormat
  import opened Replay
  import opened CrashSafety
  import opened Pipeline
  import opened PipelineJournal
  import opened PipelineInv
  import opened LogicalDisk
  import opened CrashRuns
  import opened Lookup

  // ---- runs built step by step ----

  datatype Story = Story(states: seq<Sys>, actions: seq<Action>)

  /** A run from s0 that gives no generation up, in which block b was last written with w. */
  ghost predicate Tells(r: Story, s0: Sys, b: u64, w: Block) {
    && |r.states| == |r.actions| + 1 && IsRun(r.states, r.actions) && r.states[0] == s0 && b < |s0.disk.base|
    && (forall k :: 0 <= k < |r.actions| ==> Keeps(r, k))
    && LastWritten(r.states, r.actions, |r.actions|, b) == w
  }

  /** Step k does not give up the generation on its way to the journal, and is no direct write. */
  predicate Keeps(r: Story, k: nat)
    requires k < |r.actions| == |r.states| - 1
  {
    !(r.states[k].pc.Reclaiming? && r.states[k + 1].pc.Lagging?) && !r.actions[k].WriteDirect?
  }

  /** q is r and what came after it. */
  predicate Continues(r: Story, q: Story) {
    r.states <= q.states && r.actions <= q.actions
  }

  function Now(r: Story): Sys
    requires r.states != []
  {
    r.states[|r.states| - 1]
  }

  function Then(r: Story, a: Action, t: Sys): Story {
    Story(r.states + [t], r.actions + [a])
  }

  lemma {:induction false} WrittenSoFar(r: Story, a: Action, t: Sys, i: nat, b: nat)
    requires i < |r.states| == |r.actions| + 1 && b < |r.states[0].disk.base|
    ensures LastWritten(Then(r, a, t).states, Then(r, a, t).actions, i, b) == LastWritten(r.states, r.actions, i, b)
  {
    hide View;
    if i > 0 {
      WrittenSoFar(r, a, t, i - 1, b);
    }
  }

  lemma ThenTells(r: Story, s0: Sys, b: u64, w: Block, a: Action, t: Sys) returns (q: Story)
    requires Tells(r, s0, b, w) && Step(Now(r), a, t) && !(Now(r).pc.Reclaiming? && t.pc.Lagging?) && !a.WriteDirect?
    ensures q == Then(r, a, t) && Now(q) == t && Continues(r, q)
    ensures Tells(q, s0, b, if FillsBlock(Now(r), a, b) then a.data else w)
  {
    hide Step, View;
    q := Then(r, a, t);
    WrittenSoFar(r, a, t, |r.actions|, b);
    forall k | 0 <= k < |q.actions| ensures Step(q.states[k], q.actions[k], q.states[k + 1]) && Keeps(q, k) {
      if k < |r.actions| {
        assert Keeps(r, k) && Step(r.states[k], r.actions[k], r.states[k + 1]);
      }
    }
  }

  // ---- one commit of one block ----

  /** The operations of the commit, one tick each. */
  lemma {:induction false} CommitTicks(r: Story, s0: Sys, b: u64, w: Block, left: nat) returns (q: Story)
    requires Tells(r, s0, b, w) && Shaped(Now(r)) && Now(r).pc.Committing?
    requires |Now(r).pc.nodes| <= MAX_TAGS && Now(r).next < U64
    requires Now(r).pc.done + left == |CommitScript(Now(r))|
    ensures Tells(q, s0, b, w) && Continues(r, q) && Shaped(Now(q))
    ensures Now(q) == Now(r).(disk := Now(q).disk, pc := Now(q).pc) && Now(q).disk.base == Now(r).disk.base
    ensures Now(q).pc == Committing(Now(r).pc.nodes, Now(r).pc.direct, |CommitScript(Now(r))|)
    decreases left
  {
    hide PhysOf, Shaped, CommitOps, LastWritten, CopiesOf;
    var s := Now(r);
    if left == 0 {
      q := r;
    } else {
      var t := s.(disk := Do(s.disk, CommitScript(s)[s.pc.done]),
                  pc := Committing(s.pc.nodes, s.pc.direct, s.pc.done + 1));
      q := ThenTells(r, s0, b, w, Tick([]), t);
      ShapedStep(s, Tick([]), t);
      assert CommitScript(t) == CommitScript(s);
      q := CommitTicks(q, s0, b, w, left - 1);
    }
  }

  /** Room in the log, and in the numbers, for a transaction of one block. */
  predicate HasRoom(s: Sys) {
    s.tail <= s.head && s.head - s.tail + 3 <= s.g.maxlen && s.head + 3 < EMPTY && s.next + 1 < U64
  }

  /** From the snapshot of one block to its publication. */
  lemma CommitOne(r: Story, s0: Sys, b: u64, w: Block, node: Node) returns (q: Story)
    requires Tells(r, s0, b, w) && Shaped(Now(r)) && Now(r).pc == Forcing([node], []) && HasRoom(Now(r))
    ensures Tells(q, s0, b, w) && Continues(r, q) && Shaped(Now(q))
    ensures var s, t := Now(r), Now(q);
            t.disk.base == s.disk.base
            && t == s.(disk := t.disk, head := s.head + 3, next := s.next + 1, running := s.next + 1,
                       completed := s.running, pc := Lagging,
                       ckpt := s.ckpt + [Committed(s.next, s.head, [node], [])])
  {
    hide PhysOf, Shaped, CommitScript, IsRun, LastWritten, View;
    var s := Now(r);
    var t := s.(pc := Reclaiming([node], []));
    q := Forward(r, s0, b, w, Tick([]), t);
    var u := t.(pc := Committing([node], [], 0));
    q := Forward(q, s0, b, w, Tick([]), u);
    q := CommitTicks(q, s0, b, w, |CommitScript(u)|);
    var e := Now(q);
    SameScript(u, e);
    q := Forward(q, s0, b, w, Tick([]), Published(e));
  }

  lemma SameScript(u: Sys, e: Sys)
    requires Shaped(u) && Shaped(e) && u.pc.Committing? && e.pc.Committing? && u.next < U64 && |u.pc.nodes| <= MAX_TAGS
    requires e == u.(disk := e.disk, pc := e.pc) && e.pc.nodes == u.pc.nodes
    ensures CommitScript(u) == CommitScript(e)
  {
    hide PhysOf, Shaped, CommitOps, CopiesOf;
  }

  /** A step that fills no buffer. */
  lemma Forward(r: Story, s0: Sys, b: u64, w: Block, a: Action, t: Sys) returns (q: Story)
    requires Tells(r, s0, b, w) && Step(Now(r), a, t) && !a.Fill? && !a.WriteDirect?
    requires !(Now(r).pc.Reclaiming? && t.pc.Lagging?)
    ensures q == Then(r, a, t) && Tells(q, s0, b, w) && Now(q) == t && Continues(r, q) && Shaped(t)
  {
    hide Step, Shaped, LastWritten;
    q := ThenTells(r, s0, b, w, a, t);
    ShapedStep(Now(r), a, t);
  }

  // ---- the run ----

  /** A session that has just begun, with room for two transactions of one block. */
  ghost predicate Ready(s: Sys, b: u64) {
    && Init(s) && !s.shutdown && IsHome(s.g, |s.disk.base|, b) && b < |s.disk.base|
    && 6 <= s.g.maxlen && s.head + 6 < EMPTY && s.next + 2 < U64
  }

  /** Handle h starts, stages b with the content now below, and no buffer of b is in the way. */
  lemma StartAndStage(r: Story, s0: Sys, b: u64, w: Block, h: nat) returns (q: Story)
    requires Tells(r, s0, b, w) && Shaped(Now(r)) && IsHome(Now(r).g, |Now(r).disk.base|, b) && b < |Now(r).disk.base|
    requires !Now(r).freezing && h !in Now(r).born && Now(r).handles == map[] && Now(r).staged == map[]
    requires Now(r).ckpt == []
    ensures Tells(q, s0, b, w) && Continues(r, q) && Shaped(Now(q))
    ensures var s, t := Now(r), Now(q);
            t == s.(bufs := s.bufs + [View(s.disk, b)], staged := map[b := |s.bufs|],
                    handles := map[h := Handle(s.gen, {|s.bufs|})], born := s.born[h := s.gen])
  {
    hide PhysOf, Shaped, IsRun, LastWritten, View, IsHome;
    var s := Now(r);
    ShapedLists(s);
    var t := s.(handles := s.handles[h := Handle(s.gen, {})], born := s.born[h := s.gen]);
    q := Forward(r, s0, b, w, Start(h), t);
    ShapedLists(t);
    assert Seed(t, b) == View(s.disk, b) && {} + {|s.bufs|} == {|s.bufs|};
    assert t.staged[b := |s.bufs|] == map[b := |s.bufs|];
    assert t.handles == map[h := Handle(s.gen, {})];
    q := Forward(q, s0, b, w, Stage(h, b), StageStep(t, h, b));
  }

  lemma StopHandle(r: Story, s0: Sys, b: u64, w: Block, h: nat) returns (q: Story)
    requires Tells(r, s0, b, w) && Shaped(Now(r)) && h in Now(r).handles
    ensures Tells(q, s0, b, w) && Continues(r, q) && Shaped(Now(q))
    ensures Now(q) == Now(r).(handles := Now(r).handles - {h})
  {
    hide PhysOf, Shaped, IsRun, LastWritten, View;
    q := Forward(r, s0, b, w, Stop(h), Now(r).(handles := Now(r).handles - {h}));
  }

  /** The thread wakes up and takes the snapshot of the one staged block. */
  lemma TakeSnapshot(r: Story, s0: Sys, b: u64, w: Block, buf: nat) returns (q: Story)
    requires Tells(r, s0, b, w) && Shaped(Now(r)) && Now(r).pc == Waiting && !Now(r).shutdown
    requires Now(r).staged == map[b := buf] && Now(r).handles == map[] && Now(r).direct == []
    ensures Tells(q, s0, b, w) && Continues(r, q) && Shaped(Now(q))
    ensures Now(q) == Now(r).(staged := map[], requested := false, freezing := false, gen := Now(r).gen + 1,
                              pc := Forcing([Node(b, buf)], []))
  {
    hide PhysOf, Shaped, IsRun, LastWritten, View;
    var s := Now(r);
    assert b in s.staged;
    var t := s.(freezing := true, pc := Freezing);
    q := Forward(r, s0, b, w, Tick([]), t);
    var nodes := [Node(b, buf)];
    assert nodes[0] == Node(b, t.staged[b]);
    var u := t.(staged := map[], direct := [], requested := false, freezing := false, gen := t.gen + 1,
                pc := Forcing(nodes, t.direct));
    q := Forward(q, s0, b, w, Tick(nodes), u);
  }

  lemma FillIt(r: Story, s0: Sys, b: u64, w: Block, h: nat, v: Block) returns (q: Story)
    requires Tells(r, s0, b, w) && Shaped(Now(r)) && Older(v, Now(r).next)
    requires h in Now(r).handles && b in Now(r).staged && Now(r).staged[b] in Now(r).handles[h].bufs
    requires Now(r).staged[b] < |Now(r).bufs|
    ensures Tells(q, s0, b, v) && Continues(r, q) && Shaped(Now(q))
    ensures Now(q) == Now(r).(bufs := Now(r).bufs[Now(r).staged[b] := v])
  {
    hide PhysOf, Shaped, IsRun, Older, LastWritten, View;
    var s := Now(r);
    var buf := s.staged[b];
    var t := s.(bufs := s.bufs[buf := v]);
    assert FillsBlock(s, Fill(h, buf, v), b);
    q := ThenTells(r, s0, b, w, Fill(h, buf, v), t);
    ShapedStep(s, Fill(h, buf, v), t);
  }

  /** Up to the snapshot of v, and a new buffer for b staged while v is in flight. */
  lemma StagedAgain(s0: Sys, b: u64, v: Block) returns (r: Story)
    requires Ready(s0, b) && Older(v, s0.next)
    ensures Tells(r, s0, b, v) && Shaped(Now(r))
    ensures Now(r) == s0.(bufs := [v, View(s0.disk, b)], staged := map[b := 1], requested := false, gen := s0.gen + 1,
                          handles := map[1 := Handle(s0.gen + 1, {1})], born := s0.born[0 := s0.gen][1 := s0.gen + 1],
                          pc := Forcing([Node(b, 0)], []))
  {
    hide PhysOf, Shaped, IsRun, View, IsHome, Older, Stable, HomeOlder, LastWritten;
    r := Story([s0], []);
    BeginsTale(s0, b);
    r := StartAndStage(r, s0, b, View(s0.disk, b), 0);
    r := FillIt(r, s0, b, View(s0.disk, b), 0, v);
    r := StopHandle(r, s0, b, v, 0);
    assert Now(r).handles == map[];
    r := TakeSnapshot(r, s0, b, v, 0);
    r := StartAndStage(r, s0, b, v, 1);
  }

  /** Up to the publication of v, with a new buffer for b staged before it. */
  lemma FirstHalf(s0: Sys, b: u64, v: Block) returns (r: Story)
    requires Ready(s0, b) && Older(v, s0.next)
    ensures Tells(r, s0, b, v) && Shaped(Now(r))
    ensures var t := Now(r);
            t.pc == Lagging && t.bufs == [v, View(s0.disk, b)] && t.staged == map[b := 1] && t.handles == map[]
            && t.direct == [] && !t.shutdown && t.g == s0.g && t.disk.base == s0.disk.base
            && t.tail == s0.tail && t.head == s0.head + 3 && t.next == s0.next + 1
            && t.ckpt == [Committed(s0.next, s0.head, [Node(b, 0)], [])]
  {
    hide PhysOf, Shaped, IsRun, View, IsHome, Older, Stable, HomeOlder, LastWritten;
    r := StagedAgain(s0, b, v);
    r := StopHandle(r, s0, b, v, 1);
    assert Now(r).handles == map[];
    r := CommitOne(r, s0, b, v, Node(b, 0));
  }

  lemma {:induction false} BeginsTale(s0: Sys, b: u64)
    requires b < |s0.disk.base|
    ensures Tells(Story([s0], []), s0, b, View(s0.disk, b))
  {
    hide View;
  }

  lemma SecondHalf(r: Story, s0: Sys, b: u64, v: Block, w: Block) returns (q: Story)
    requires Tells(r, s0, b, v) && Shaped(Now(r)) && HasRoom(Now(r))
    requires var t := Now(r);
             t.pc == Lagging && t.bufs == [v, w] && t.staged == map[b := 1] && t.handles == map[]
             && t.direct == [] && !t.shutdown && |t.ckpt| == 1
    ensures Tells(q, s0, b, v) && Continues(r, q) && Shaped(Now(q))
    ensures var s, t := Now(r), Now(q);
            t.bufs == [v, w] && t.staged == map[] && t.pc == Lagging && t.next == s.next + 1
            && t.disk.base == s.disk.base
            && t.ckpt == s.ckpt + [Committed(s.next, s.head, [Node(b, 1)], [])]
  {
    hide PhysOf, Shaped, IsRun, LastWritten, View;
    q := Forward(r, s0, b, v, Tick([]), Now(r).(pc := Waiting));
    q := TakeSnapshot(q, s0, b, v, 1);
    q := CommitOne(q, s0, b, v, Node(b, 1));
  }

  /** The newest transaction on the list decides what the logical disk holds. */
  lemma NewestDecides(s: Sys, b: u64, node: Node)
    requires Shaped(s) && !s.pc.Checkpointing? && s.ckpt != [] && b < |s.disk.base|
    requires s.ckpt[|s.ckpt| - 1].nodes == [node] && node.blockno == b && node.buf < |s.bufs|
    ensures LiveBufsIn(s) && Logical(s, b) == s.bufs[node.buf]
  {
    hide PhysOf, Shaped, View;
    ShapedLists(s);
    assert LiveList(s) == s.ckpt;
    CkptNewest(s, b);
    assert CopiesOf(s.bufs, [node])[0] == Copy(b, s.bufs[node.buf]);
  }

  /**
   From every beginning of a session with room for two transactions, and for every content v:
   a run that publishes v in block b, publishes once more, drops nothing, in which nobody
   writes b again, and which leaves b with what it held before v was written.
   */
  lemma Undone(s0: Sys, b: u64, v: Block) returns (r: Story, m: nat)
    requires Ready(s0, b) && Older(v, s0.next)
    ensures Tells(r, s0, b, v) && m < |r.states|
    ensures var p := r.states[m]; p.next == s0.next + 1 && LiveBufsIn(p) && b < |p.disk.base| && Logical(p, b) == v
    ensures var t := Now(r); t.next == s0.next + 2 && Shaped(t) && LiveBufsIn(t) && b < |t.disk.base|
    ensures Logical(Now(r), b) == View(s0.disk, b) && Layered(Now(r), b) == View(s0.disk, b)
  {
    hide PhysOf, Shaped, IsRun, View, IsHome, Stable, HomeOlder, LastWritten, Older, Logical;
    r := FirstHalf(s0, b, v);
    m := |r.states| - 1;
    var p := Now(r);
    NewestDecides(p, b, Node(b, 0));
    r := SecondHalf(r, s0, b, v, View(s0.disk, b));
    var t := Now(r);
    assert t.ckpt[|t.ckpt| - 1].nodes == [Node(b, 1)];
    NewestDecides(t, b, Node(b, 1));
    NothingOnTheWay(t);
  }
}
