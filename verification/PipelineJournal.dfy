/** The journal as the pipeline drives it: which log the state stands for, kept by every step. */
module PipelineJournal {
  import opened Bytes
  import opened DiskFormat
  import opened Device
  import opened LogFormat
  import opened Replay
  import opened CrashSafety
  import opened Checkpoint
  import opened Pipeline

  /** The transactions still in the log: the one being checkpointed, then the list. */
  function LiveList(s: Sys): seq<Committed> {
    (if s.pc.Checkpointing? then [s.pc.txn] else []) + s.ckpt
  }

  predicate LiveBufsIn(s: Sys) {
    AllBufsIn(LiveList(s), |s.bufs|)
  }

  function LiveTxns(s: Sys): seq<Txn>
    requires LiveBufsIn(s)
  {
    TxnsOf(s.bufs, LiveList(s))
  }

  function LogOf(s: Sys): Log
    requires LiveBufsIn(s)
  {
    Log(s.g, s.tail, s.next, LiveTxns(s))
  }

  /** What the commit thread is doing to the journal. */
  datatype Phase = Still | InCommit(txn: Txn, done: nat) | InCheckpoint(done: nat)

  function PhaseOf(s: Sys): Phase
    requires Shaped(s)
  {
    if s.pc.Committing? && s.next < U64 then InCommit(TxnOf(s.bufs, s.next, s.pc.nodes), s.pc.done)
    else if s.pc.Checkpointing? then InCheckpoint(s.pc.done)
    else Still
  }

  ghost predicate JournalOk(d: Disk, l: Log, head: nat, phase: Phase) {
    && WellFormed(l, |d.base|)
    && head == Head(l)
    && match phase
       case Still => Stable(d, l)
       case InCommit(t, k) => Mid(d, l, t, k) && t.revokes == [] && k <= |CommitOps(l.g, head, l.live == [], t)|
       case InCheckpoint(k) => Moving(d, l, k) && k <= |OldestOps(l)|
  }

  /** Consecutive numbers and adjacent places, oldest first. */
  ghost predicate Tiles(list: seq<Committed>, off: nat, number: nat)
    decreases |list|
  {
    list != [] ==>
      && list[0].descOffset == off
      && list[0].sequence == number
      && Tiles(list[1..], off + |list[0].nodes| + 2, number + 1)
  }

  function Span(list: seq<Committed>): nat {
    if list == [] then 0 else |list[0].nodes| + 2 + Span(list[1..])
  }

  ghost predicate JournalInv(s: Sys) {
    && Shaped(s) && LiveBufsIn(s)
    && s.next < U64 && |LiveList(s)| <= s.next
    && Tiles(LiveList(s), s.tail, s.next - |LiveList(s)|)
    && s.head == s.tail + Span(LiveList(s))
    && (s.pc.Committing? ==> |s.pc.nodes| <= MAX_TAGS)
    && JournalOk(s.disk, LogOf(s), s.head, PhaseOf(s))
  }

  // ---- the log does not depend on buffers that can still be written ----

  /** Buffer buf belongs to a transaction that has been taken from the staging table. */
  ghost predicate Taken(s: Sys, buf: nat) {
    || (exists i, k :: 0 <= i < |LiveList(s)| && 0 <= k < |LiveList(s)[i].nodes| && LiveList(s)[i].nodes[k].buf == buf)
    || (exists k :: 0 <= k < |PcNodes(s)| && PcNodes(s)[k].buf == buf)
  }

  /** The nodes of the generation on its way to the journal. */
  function PcNodes(s: Sys): seq<Node> {
    OnTheWay(s.pc)
  }

  function OnTheWay(pc: Pc): seq<Node> {
    match pc
    case Forcing(nodes, _) => nodes
    case Reclaiming(nodes, _) => nodes
    case Committing(nodes, _, _) => nodes
    case Checkpointing(_, _, resume) => if resume.ToReclaim? then resume.nodes else []
    case _ => []
  }

  /** t differs from s in buffers that nobody has taken, and in nothing the journal sees. */
  ghost predicate SameTaken(s: Sys, t: Sys) {
    && |s.bufs| <= |t.bufs|
    && forall buf :: 0 <= buf < |s.bufs| && Taken(s, buf) ==> t.bufs[buf] == s.bufs[buf]
  }

  lemma TxnOfSame(s: Sys, t: Sys, sequence: u64, nodes: seq<Node>)
    requires BufsIn(nodes, |s.bufs|) && |s.bufs| <= |t.bufs|
    requires forall i :: 0 <= i < |nodes| ==> t.bufs[nodes[i].buf] == s.bufs[nodes[i].buf]
    ensures BufsIn(nodes, |t.bufs|) && TxnOf(t.bufs, sequence, nodes) == TxnOf(s.bufs, sequence, nodes)
  {
    assert CopiesOf(t.bufs, nodes) == CopiesOf(s.bufs, nodes);
  }

  lemma LogSame(s: Sys, t: Sys)
    requires LiveBufsIn(s) && SameTaken(s, t) && LiveList(t) == LiveList(s)
    requires t.g == s.g && t.tail == s.tail && t.next == s.next
    ensures LiveBufsIn(t) && LogOf(t) == LogOf(s)
  {
    var list := LiveList(s);
    forall i | 0 <= i < |list|
      ensures BufsIn(list[i].nodes, |t.bufs|)
      ensures TxnOf(t.bufs, list[i].sequence, list[i].nodes) == TxnOf(s.bufs, list[i].sequence, list[i].nodes)
    {
      forall k | 0 <= k < |list[i].nodes| ensures t.bufs[list[i].nodes[k].buf] == s.bufs[list[i].nodes[k].buf] {
        assert Taken(s, list[i].nodes[k].buf);
      }
      TxnOfSame(s, t, list[i].sequence, list[i].nodes);
    }
    assert LiveTxns(t) == LiveTxns(s);
  }

  lemma JournalOkSame(d: Disk, e: Disk, l: Log, head: nat, phase: Phase)
    requires JournalOk(d, l, head, phase) && SameJournal(d, e, l.g)
    ensures JournalOk(e, l, head, phase)
  {
    hide PhysOf, Mid, Moving, Stable, WellFormed, SameJournal, CommitOps, OldestOps;
    assert |e.base| == |d.base| by {
      SameJournalBase(d, e, l.g);
    }
    match phase
    case Still => StableSame(d, e, l);
    case InCommit(t, k) => MidSame(d, e, l, t, k);
    case InCheckpoint(k) => MovingSame(d, e, l, k);
  }

  lemma SameJournalBase(d: Disk, e: Disk, g: Geometry)
    requires SameJournal(d, e, g)
    ensures |e.base| == |d.base|
  {}

  /** Steps of handles reach the journal only through writes to home blocks. */
  lemma JournalFrame(s: Sys, t: Sys)
    requires JournalInv(s) && Shaped(t) && SameTaken(s, t)
    requires t.g == s.g && t.tail == s.tail && t.next == s.next && t.head == s.head
    requires t.ckpt == s.ckpt && t.pc == s.pc
    requires t.disk == s.disk || SameJournal(s.disk, t.disk, s.g)
    ensures JournalInv(t)
  {
    hide PhysOf, JournalOk, WellFormed, SameJournal, Tiles, Span, Shaped;
    LogSame(s, t);
    if s.pc.Committing? {
      ShapedPc(s);
      forall k | 0 <= k < |s.pc.nodes| ensures t.bufs[s.pc.nodes[k].buf] == s.bufs[s.pc.nodes[k].buf] {
        assert Taken(s, PcNodes(s)[k].buf);
      }
      TxnOfSame(s, t, s.next, s.pc.nodes);
    }
    if t.disk != s.disk {
      JournalOkSame(s.disk, t.disk, LogOf(s), s.head, PhaseOf(s));
    }
  }

  lemma ShapedPc(s: Sys)
    requires Shaped(s)
    ensures s.pc.Forcing? || s.pc.Reclaiming? || s.pc.Committing? ==> BufsIn(s.pc.nodes, |s.bufs|)
  {}

  // ---- the log and its tiling ----

  lemma {:induction false} TiledEncoding(bufs: seq<Block>, list: seq<Committed>)
    requires AllBufsIn(list, |bufs|) && AllEncodable(TxnsOf(bufs, list))
    ensures |EncodeLog(TxnsOf(bufs, list))| == Span(list)
    decreases |list|
  {
    hide EncodeTxn;
    if list != [] {
      assert TxnsOf(bufs, list)[1..] == TxnsOf(bufs, list[1..]);
      TiledEncoding(bufs, list[1..]);
    } else {
      assert TxnsOf(bufs, list) == [];
    }
  }

  lemma {:induction false} TilesSnoc(list: seq<Committed>, off: nat, number: nat, c: Committed)
    requires Tiles(list, off, number)
    requires c.descOffset == off + Span(list) && c.sequence == number + |list|
    ensures Tiles(list + [c], off, number) && Span(list + [c]) == Span(list) + |c.nodes| + 2
    decreases |list|
  {
    if list != [] {
      assert (list + [c])[1..] == list[1..] + [c];
      TilesSnoc(list[1..], off + |list[0].nodes| + 2, number + 1, c);
    } else {
      assert (list + [c])[1..] == [];
    }
  }

  lemma {:induction false} SpanEmpty(list: seq<Committed>)
    ensures Span(list) >= 2 * |list|
  {
    if list != [] {
      SpanEmpty(list[1..]);
    }
  }

  lemma TxnsOfSnoc(bufs: seq<Block>, list: seq<Committed>, c: Committed)
    requires AllBufsIn(list, |bufs|) && BufsIn(c.nodes, |bufs|)
    ensures AllBufsIn(list + [c], |bufs|)
    ensures TxnsOf(bufs, list + [c]) == TxnsOf(bufs, list) + [TxnOf(bufs, c.sequence, c.nodes)]
  {}

  // ---- steps of the commit thread ----

  /** Steps that move the thread but not the journal. */
  lemma QuietStep(s: Sys, t: Sys)
    requires JournalInv(s) && Shaped(t) && LiveList(t) == LiveList(s) && t.bufs == s.bufs
    requires t.g == s.g && t.tail == s.tail && t.next == s.next && t.head == s.head && t.disk == s.disk
    requires PhaseOf(s).Still? && PhaseOf(t).Still? && !t.pc.Committing?
    ensures JournalInv(t)
  {
    hide PhysOf, JournalOk, Tiles, Span, Shaped;
    LogSame(s, t);
  }

  lemma PopStep(s: Sys, t: Sys, resume: Resume)
    requires JournalInv(s) && PhaseOf(s).Still? && !s.pc.Checkpointing? && s.ckpt != []
    requires Shaped(t) && t == PopOldest(s, resume)
    ensures JournalInv(t)
  {
    hide PhysOf, Stable, Tiles, Span, Shaped, OldestOps, WellFormed, EncodeLog, CommitOps, CopiesOf;
    assert LiveList(t) == LiveList(s);
    LogSame(s, t);
    assert LiveTxns(s) != [];
  }

  lemma ForceStep(s: Sys, t: Sys)
    requires JournalInv(s) && s.pc.Forcing? && Shaped(t) && !t.pc.Checkpointing? && !t.pc.Committing?
    requires t == s.(pc := t.pc, disk := t.disk, completed := t.completed)
             && (t.disk == s.disk || t.disk == Do(s.disk, Flush))
    ensures JournalInv(t)
  {
    hide PhysOf, Stable, Tiles, Span, Shaped, WellFormed, EncodeLog, CommitOps, OldestOps, Mid, Moving, CopiesOf;
    LogSame(s, t);
    if t.disk != s.disk {
      StableDo(s.disk, Flush, LogOf(s), 0);
    }
  }

  lemma JournalParts(s: Sys)
    requires JournalInv(s)
    ensures Shaped(s) && LiveBufsIn(s) && s.next < U64 && |LiveList(s)| <= s.next
    ensures WellFormed(LogOf(s), |s.disk.base|) && s.head == Head(LogOf(s))
    ensures AllEncodable(LiveTxns(s)) && Fits(s.g, |s.disk.base|)
  {
    hide PhysOf, Shaped, Tiles, Span, EncodeLog, Mid, Moving, Stable;
    WellFormedParts(LogOf(s), |s.disk.base|);
  }

  lemma EmptyLive(s: Sys)
    requires JournalInv(s)
    ensures s.tail == s.head <==> LiveTxns(s) == []
  {
    hide PhysOf, JournalOk, Tiles, Shaped;
    SpanEmpty(LiveList(s));
  }

  /** do_commit goes ahead: the transaction fits the log. */
  lemma BeginCommit(s: Sys, t: Sys, nodes: seq<Node>, direct: seq<nat>)
    requires JournalInv(s) && s.pc == Reclaiming(nodes, direct)
    requires SpaceNeeded(|nodes|, 0) != 0 && SpaceNeeded(|nodes|, 0) <= FreeSpace(s.g.maxlen, s.head, s.tail)
    requires s.next + 1 < U64 && s.head + SpaceNeeded(|nodes|, 0) < EMPTY
    requires forall i :: 0 <= i < |nodes| ==> IsHome(s.g, |s.disk.base|, nodes[i].blockno)
    requires forall i :: 0 <= i < |s.bufs| ==> Older(s.bufs[i], s.next)
    requires Shaped(t) && t == s.(pc := Committing(nodes, direct, 0))
    ensures JournalInv(t)
  {
    hide PhysOf, Stable, Tiles, Shaped, WellFormed, Body, EncodeLog, Older, IsHome, View;
    assert BufsIn(nodes, |s.bufs|) by {
      ShapedPc(s);
    }
    LogSame(s, t);
    var l, txn := LogOf(s), TxnOf(s.bufs, s.next, nodes);
    WellFormedParts(l, |s.disk.base|);
    assert CanCommit(l, txn, |s.disk.base|);
    CanCommitParts(l, txn, |s.disk.base|);
    assert Mid(s.disk, l, txn, 0);
  }

  lemma CommitOp(s: Sys, t: Sys)
    requires JournalInv(s) && s.pc.Committing? && s.pc.done < |CommitScript(s)|
    requires Shaped(t)
    requires t == s.(disk := Do(s.disk, CommitScript(s)[s.pc.done]),
                         pc := Committing(s.pc.nodes, s.pc.direct, s.pc.done + 1))
    ensures JournalInv(t)
  {
    hide PhysOf, Stable, Tiles, Span, Shaped, WellFormed, Body, EncodeLog, Mid, CommitOps;
    LogSame(s, t);
    EmptyLive(s);
    ShapedPc(s);
    var l, txn := LogOf(s), TxnOf(s.bufs, s.next, s.pc.nodes);
    MidCan(s.disk, l, txn, s.pc.done);
    CommitStep(s.disk, l, txn, s.pc.done);
  }

  lemma MidCan(d: Disk, l: Log, t: Txn, k: nat)
    requires Mid(d, l, t, k)
    ensures CanCommit(l, t, |d.base|)
  {}

  /** The disk at the end of the script is the log with the transaction behind it. */
  lemma CommitDone(d: Disk, l: Log, t: Txn, k: nat)
    requires Mid(d, l, t, k) && LayoutAgrees(t) && k == |CommitOps(l.g, Head(l), l.live == [], t)|
    ensures Stable(d, After(l, t)) && WellFormed(After(l, t), |d.base|)
    ensures Head(After(l, t)) == Head(l) + Size(t)
  {
    hide PhysOf, Stable, WellFormed, Body, EncodeLog, EncodeTxn, CommitDurable, Finished, CommitRecord, SuperBlock;
    hide LayoutAgrees;
    if l.live != [] {
      NonemptyFinished(d, l, t);
    }
    FinishedStable(d, l, t);
    AfterWellFormed(l, t, |d.base|);
  }

  lemma PublishStep(s: Sys, t: Sys)
    requires JournalInv(s) && s.pc.Committing? && s.pc.done >= |CommitScript(s)|
    requires Shaped(t) && t == Published(s)
    ensures JournalInv(t)
  {
    hide PhysOf, Stable, Shaped, WellFormed, Body, EncodeLog, Mid, CommitOps, Tiles, Span;
    ShapedPc(s);
    var l, txn := LogOf(s), TxnOf(s.bufs, s.next, s.pc.nodes);
    var c := Committed(s.next, s.head, s.pc.nodes, s.pc.direct);
    EmptyLive(s);
    MidCan(s.disk, l, txn, s.pc.done);
    CanCommitParts(l, txn, |s.disk.base|);
    CommitDone(s.disk, l, txn, s.pc.done);
    assert LiveList(t) == LiveList(s) + [c];
    assert BufsIn(c.nodes, |s.bufs|) by {
      ShapedPc(s);
    }
    TxnsOfSnoc(s.bufs, LiveList(s), c);
    assert LogOf(t) == After(l, txn);
    TilesSnoc(LiveList(s), s.tail, s.next - |LiveList(s)|, c);
  }

  lemma Oldest(s: Sys)
    requires JournalInv(s) && s.pc.Checkpointing?
    ensures LiveTxns(s) != [] && |LiveTxns(s)| <= s.next && AllEncodable(LiveTxns(s))
    ensures LiveTxns(s)[0] == TxnOf(s.bufs, s.pc.txn.sequence, s.pc.txn.nodes)
    ensures s.head == Head(LogOf(s))
  {
    hide PhysOf, Shaped, Moving, EncodeLog, Tiles, Span, CopiesOf, OldestOps;
    WellFormedParts(LogOf(s), |s.disk.base|);
  }

  lemma NewTailFacts(s: Sys)
    requires JournalInv(s) && s.pc.Checkpointing?
    ensures NewTail(s) == s.tail + |s.pc.txn.nodes| + 2
    ensures NewTailSequence(s) == s.next - |LiveList(s)| + 1
  {
    hide PhysOf, Shaped, JournalOk, CopiesOf, LogOf;
    var list := LiveList(s);
    assert list[0] == s.pc.txn && list[1..] == s.ckpt;
    if s.ckpt == [] {
      assert Span(list) == |list[0].nodes| + 2 + Span([]);
    } else {
      assert Tiles(list[1..], s.tail + |list[0].nodes| + 2, s.next - |list| + 1);
    }
  }

  lemma Scripts(s: Sys)
    requires JournalInv(s) && s.pc.Checkpointing?
    ensures LiveTxns(s) != [] && |LiveTxns(s)| <= s.next && AllEncodable(LiveTxns(s))
    ensures CheckpointScript(s) == OldestOps(LogOf(s))
    ensures NewTail(s) == s.tail + |s.pc.txn.nodes| + 2
  {
    hide PhysOf, Shaped, TailSuper, InstallOps, JournalOk, JournalInv, EncodeLog, CheckpointOps, NewTail;
    hide NewTailSequence;
    JournalParts(s);
    Oldest(s);
    NewTailFacts(s);
  }

  lemma CheckpointOp(s: Sys, t: Sys)
    requires JournalInv(s) && s.pc.Checkpointing? && s.pc.done < |CheckpointScript(s)|
    requires Shaped(t)
    requires t == s.(disk := Do(s.disk, CheckpointScript(s)[s.pc.done]),
                     pc := Checkpointing(s.pc.txn, s.pc.done + 1, s.pc.resume))
    ensures JournalInv(t)
  {
    hide PhysOf, Stable, Tiles, Span, Shaped, WellFormed, EncodeLog, Moving, OldestOps;
    assert LiveList(t) == LiveList(s);
    LogSame(s, t);
    Scripts(s);
    CheckpointStep(s.disk, LogOf(s), s.pc.done);
  }

  lemma CheckpointEnd(s: Sys, t: Sys)
    requires JournalInv(s) && s.pc.Checkpointing? && s.pc.done >= |CheckpointScript(s)|
    requires Shaped(t) && t == s.(tail := NewTail(s), pc := Resumed(s.pc.resume))
    ensures JournalInv(t)
  {
    hide PhysOf, Stable, Shaped, WellFormed, EncodeLog, EncodeTxn, CommitOps, OldestOps, CheckpointScript, Mid;
    hide CopiesOf;
    Scripts(s);
    Oldest(s);
    var l := LogOf(s);
    AdvancedWellFormed(l, |s.disk.base|);
    assert LiveList(s)[1..] == s.ckpt == LiveList(t);
    assert LiveTxns(s)[1..] == LiveTxns(t);
    assert LogOf(t) == Advanced(l);
  }
}
