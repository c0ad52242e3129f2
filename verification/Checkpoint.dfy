/**
 Checkpointing the oldest live transaction: its copies go home, a flush, and the journal
 superblock moves past it. Crashes between any two operations, home content included.
 */
module Checkpoint {
  import opened Bytes
  import opened DiskFormat
  import opened Device
  import opened LogFormat
  import opened Replay
  import opened CrashSafety

  /** The log without its oldest transaction. */
  function Advanced(l: Log): Log
    requires l.live != []
  {
    Log(l.g, l.tail + Size(l.live[0]), l.next, l.live[1..])
  }

  /** The superblock that says the log starts at newTail, or that it is empty. */
  function TailSuper(g: Geometry, newTail: nat, newSequence: nat, head: nat): Block {
    SuperBlock(g.maxlen, g.first, newSequence, if newTail == head then EMPTY else newTail)
  }

  /** Every device operation of one checkpoint, in order. */
  function CheckpointOps(g: Geometry, copies: seq<Copy>, newTail: nat, newSequence: nat, head: nat): (ops: seq<Op>)
    ensures |ops| == |copies| + 3
  {
    InstallOps(copies) + [Flush, Write(JSUPER, TailSuper(g, newTail, newSequence, head)), Flush]
  }

  /** The number of the transaction behind the oldest, or the next number to give out. */
  function SecondSequence(l: Log): nat
    requires l.live != [] && |l.live| <= l.next
  {
    l.next - |l.live| + 1
  }

  function OldestOps(l: Log): (ops: seq<Op>)
    requires l.live != [] && |l.live| <= l.next && AllEncodable(l.live)
    ensures |ops| == |l.live[0].copies| + 3
  {
    CheckpointOps(l.g, l.live[0].copies, l.tail + Size(l.live[0]), SecondSequence(l), Head(l))
  }

  lemma AdvancedWellFormed(l: Log, nblocks: nat)
    requires WellFormed(l, nblocks) && l.live != []
    ensures WellFormed(Advanced(l), nblocks) && Head(Advanced(l)) == Head(l)
    ensures EncodeLog(l.live) == EncodeTxn(l.live[0]) + EncodeLog(Advanced(l).live)
  {
    hide EncodeTxn, LayoutAgrees, Encodable, PhysOf;
    var rest := l.live[1..];
    forall i | 0 <= i < |rest|
      ensures rest[i] == l.live[i + 1] && rest[i].sequence == (l.next - |rest| + i) % U64
    {
      assert l.live[i + 1].sequence == (l.next - |l.live| + (i + 1)) % U64;
    }
  }

  lemma AdvancedSays(l: Log, nblocks: nat, newSuper: Block)
    requires WellFormed(l, nblocks) && l.live != [] && AllEncodable(l.live)
    requires newSuper == TailSuper(l.g, l.tail + Size(l.live[0]), SecondSequence(l), Head(l))
    ensures SuperSays(newSuper, Advanced(l))
  {
    hide EncodeTxn, LayoutAgrees, Encodable, PhysOf, SuperBlock, Magic, SuperStart, SuperSequence;
    AdvancedWellFormed(l, nblocks);
    var newTail := l.tail + Size(l.live[0]);
    assert |EncodeLog(l.live[1..])| >= 2 * |l.live[1..]|;
    assert newTail == Head(l) <==> l.live[1..] == [];
    SuperBlockReadsBack(l.g.maxlen, l.g.first, SecondSequence(l), if newTail == Head(l) then EMPTY else newTail);
  }

  ghost predicate TailIssued(d: Disk, l: Log)
    requires WellFormed(l, |d.base|) && l.live != []
  {
    && LogHeld(d, l.g, l.tail, EncodeLog(l.live))
    && FreshHeld(d, l.g, l.next)
    && SuperSays(View(d, JSUPER), Advanced(l))
    && forall v :: May(d, JSUPER, v) ==> SuperSays(v, l) || SuperSays(v, Advanced(l))
  }

  /** The disk after the first k operations of checkpointing the oldest transaction of l. */
  ghost predicate Moving(d: Disk, l: Log, k: nat) {
    && WellFormed(l, |d.base|) && l.live != []
    && var n := |l.live[0].copies|;
       if k <= n + 1 then Stable(d, l)
       else if k == n + 2 then TailIssued(d, l)
       else Stable(d, Advanced(l))
  }

  lemma MovingSame(d: Disk, e: Disk, l: Log, k: nat)
    requires Moving(d, l, k) && SameJournal(d, e, l.g)
    ensures Moving(e, l, k)
  {
    hide PhysOf, May, View, SuperSays, WellFormed, EncodeLog, Stable, LogHeld, FreshHeld;
    WellFormedParts(l, |d.base|);
    var n := |l.live[0].copies|;
    if k <= n + 1 {
      StableSame(d, e, l);
    } else if k == n + 2 {
      LogHeldSame(d, e, l.g, l.tail, EncodeLog(l.live));
      FreshHeldSame(d, e, l.g, l.next);
      assert SameBlock(d, e, JSUPER);
    } else {
      StableSame(d, e, Advanced(l));
    }
  }

  lemma StepTail(d: Disk, l: Log)
    requires WellFormed(l, |d.base|) && l.live != [] && AllEncodable(l.live) && Stable(d, l)
    ensures TailIssued(Do(d, Write(JSUPER, TailSuper(l.g, l.tail + Size(l.live[0]), SecondSequence(l), Head(l)))), l)
  {
    hide PhysOf, May, View, WellFormed, EncodeLog, LogHeld, FreshHeld, TailSuper, SuperSays;
    WellFormedParts(l, |d.base|);
    var super := TailSuper(l.g, l.tail + Size(l.live[0]), SecondSequence(l), Head(l));
    var op := Write(JSUPER, super);
    AdvancedSays(l, |d.base|, super);
    LogHeldDo(d, op, l.g, l.tail, EncodeLog(l.live));
    FreshHeldDo(d, op, l.g, l.next);
    DoView(d, op, JSUPER);
    forall v | May(Do(d, op), JSUPER, v) ensures SuperSays(v, l) || SuperSays(v, Advanced(l)) {
      DoMay(d, op, JSUPER, v);
    }
  }

  lemma StepTailFlush(d: Disk, l: Log)
    requires WellFormed(l, |d.base|) && l.live != [] && AllEncodable(l.live) && TailIssued(d, l)
    ensures Stable(Do(d, Flush), Advanced(l))
  {
    hide PhysOf, May, View, WellFormed, EncodeLog, EncodeTxn, FreshHeld, SuperSays, Holds;
    WellFormedParts(l, |d.base|);
    AdvancedWellFormed(l, |d.base|);
    WellFormedParts(Advanced(l), |d.base|);
    var e := Do(d, Flush);
    LogHeldDo(d, Flush, l.g, l.tail, EncodeLog(l.live));
    FreshHeldDo(d, Flush, l.g, l.next);
    forall v | May(e, JSUPER, v) ensures SuperSays(v, Advanced(l)) {
      DoMay(d, Flush, JSUPER, v);
    }
    var rest, s := EncodeLog(Advanced(l).live), Size(l.live[0]);
    forall i | 0 <= i < |rest| ensures Holds(e, PhysOf(l.g, Advanced(l).tail + i), rest[i]) {
      assert Holds(e, PhysOf(l.g, l.tail + (s + i)), EncodeLog(l.live)[s + i]);
    }
  }

  /** Every operation of the script moves the checkpoint one step on. */
  lemma CheckpointStep(d: Disk, l: Log, k: nat)
    requires WellFormed(l, |d.base|) && l.live != [] && AllEncodable(l.live)
    requires Moving(d, l, k) && k < |OldestOps(l)|
    ensures Moving(Do(d, OldestOps(l)[k]), l, k + 1)
  {
    hide PhysOf, EncodeLog, TailSuper, WellFormed, Stable, TailIssued;
    WellFormedParts(l, |d.base|);
    var copies := l.live[0].copies;
    var n := |copies|;
    if k < n {
      assert OldestOps(l)[k] == Write(copies[k].target, copies[k].data);
      OldestHome(l, |d.base|, k);
      HomeWriteSame(d, l.g, copies[k].target, copies[k].data);
      StableSame(d, Do(d, Write(copies[k].target, copies[k].data)), l);
    } else if k == n {
      StableDo(d, Flush, l, 0);
    } else if k == n + 1 {
      StepTail(d, l);
    } else {
      StepTailFlush(d, l);
    }
  }

  lemma OldestHome(l: Log, nblocks: nat, k: nat)
    requires WellFormed(l, nblocks) && l.live != [] && k < |l.live[0].copies|
    ensures IsHome(l.g, nblocks, l.live[0].copies[k].target)
  {
    hide EncodeLog, Encodable, LayoutAgrees;
  }

  /** A crash inside a checkpoint recovers the log with or without the oldest transaction. */
  lemma CheckpointRecovers(d: Disk, l: Log, k: nat, img: Image)
    requires Moving(d, l, k) && CrashImage(d, img)
    ensures Fits(l.g, |img|) && Fresh(img, l.g, l.next)
    ensures RecoveredTxns(img, l.g) == l.live || RecoveredTxns(img, l.g) == l.live[1..]
    ensures AllEncodable(l.live) && (RecoveredTxns(img, l.g) != [] ==> RecoveredHead(img, l.g) == Head(l))
    ensures k <= |l.live[0].copies| + 1 ==> RecoveredTxns(img, l.g) == l.live
    ensures k >= |l.live[0].copies| + 3 ==> RecoveredTxns(img, l.g) == l.live[1..]
  {
    hide PhysOf, May, View, SuperSays, EncodeLog, EncodeTxn, LogAt, Fresh, RecoveredTxns, RecoveredHead, FreshHeld;
    hide WellFormed, Stable, Head;
    WellFormedParts(l, |d.base|);
    AdvancedWellFormed(l, |d.base|);
    var n := |l.live[0].copies|;
    if k <= n + 1 {
      StableRecovers(d, l, img);
    } else if k == n + 2 {
      TailIssuedRecovers(d, l, img);
    } else {
      StableRecovers(d, Advanced(l), img);
    }
  }

  lemma TailIssuedRecovers(d: Disk, l: Log, img: Image)
    requires WellFormed(l, |d.base|) && l.live != [] && TailIssued(d, l) && CrashImage(d, img)
    ensures Fits(l.g, |img|) && Fresh(img, l.g, l.next)
    ensures RecoveredTxns(img, l.g) == l.live || RecoveredTxns(img, l.g) == l.live[1..]
    ensures AllEncodable(l.live) && (RecoveredTxns(img, l.g) != [] ==> RecoveredHead(img, l.g) == Head(l))
  {
    hide PhysOf, May, View, SuperSays, EncodeLog, EncodeTxn, LogAt, Fresh, RecoveredTxns, RecoveredHead, FreshHeld;
    hide WellFormed, Head;
    WellFormedParts(l, |d.base|);
    AdvancedWellFormed(l, |d.base|);
    WellFormedParts(Advanced(l), |d.base|);
    HeldLogAt(d, l.g, l.tail, l.live, img);
    HeldFresh(d, l.g, l.next, img);
    assert May(d, JSUPER, img[JSUPER]);
    if SuperSays(img[JSUPER], l) {
      ImageRecovers(img, l);
    } else {
      assert l.live == [l.live[0]] + l.live[1..];
      LogAtSplit(img, l.g, l.tail, l.live[0], l.live[1..]);
      ImageRecovers(img, Advanced(l));
    }
  }

  // ---- home content ----

  /** No crash image differs from a read in block b. */
  ghost predicate Settled(d: Disk, b: nat)
    requires b < |d.base|
  {
    Holds(d, b, View(d, b))
  }

  /**
   Home block b while the oldest transaction's copies go home: what was issued is what reads
   see, and after the flush nothing else can come back.
   */
  ghost predicate HomeMoving(d: Disk, copies: seq<Copy>, k: nat, b: nat)
    requires b < |d.base|
  {
    if k <= |copies| then LastCopy(copies[..k], b).Some? ==> View(d, b) == LastCopy(copies[..k], b).value
    else LastCopy(copies, b).Some? ==> Settled(d, b) && View(d, b) == LastCopy(copies, b).value
  }

  lemma {:induction false} SettledDo(d: Disk, op: Op, b: nat)
    requires b < |d.base| && Settled(d, b) && (op.Write? ==> op.blockno != b)
    ensures Settled(Do(d, op), b) && View(Do(d, op), b) == View(d, b)
  {
    hide May, View;
    DoView(d, op, b);
    DoHolds(d, op, b, View(d, b));
  }

  /** A flush settles every block. */
  lemma {:induction false} FlushSettles(d: Disk, b: nat)
    requires b < |d.base|
    ensures Settled(Do(d, Flush), b) && View(Do(d, Flush), b) == View(d, b)
  {
    hide May, View;
    DoView(d, Flush, b);
    FlushHolds(d, b);
  }

  lemma HomeMovingStep(d: Disk, l: Log, k: nat, b: nat)
    requires WellFormed(l, |d.base|) && l.live != [] && AllEncodable(l.live) && k < |OldestOps(l)|
    requires IsHome(l.g, |d.base|, b) && HomeMoving(d, l.live[0].copies, k, b)
    ensures HomeMoving(Do(d, OldestOps(l)[k]), l.live[0].copies, k + 1, b)
  {
    hide PhysOf, May, View, EncodeLog, TailSuper, WellFormed, Settled;
    WellFormedParts(l, |d.base|);
    var copies, op := l.live[0].copies, OldestOps(l)[k];
    var n := |copies|;
    DoView(d, op, b);
    if k < n {
      assert op == Write(copies[k].target, copies[k].data);
      assert copies[..k + 1][..k] == copies[..k];
    } else if k == n {
      assert copies[..n] == copies;
      FlushSettles(d, b);
    } else if LastCopy(copies, b).Some? {
      SettledDo(d, op, b);
    }
  }

  /** Blocks the checkpoint does not install keep what they hold. */
  lemma {:induction false} OtherBlocksStep(d: Disk, l: Log, k: nat, b: nat)
    requires WellFormed(l, |d.base|) && l.live != [] && AllEncodable(l.live) && k < |OldestOps(l)|
    requires IsHome(l.g, |d.base|, b) && LastCopy(l.live[0].copies, b).None? && Settled(d, b)
    ensures Settled(Do(d, OldestOps(l)[k]), b) && View(Do(d, OldestOps(l)[k]), b) == View(d, b)
  {
    hide PhysOf, May, View, EncodeLog, TailSuper, WellFormed, Settled;
    WellFormedParts(l, |d.base|);
    LastCopyIndex(l.live[0].copies, b);
    SettledDo(d, OldestOps(l)[k], b);
  }
}
