/**
 Crash consistency of the log. Commit is a script of single device operations; between any
 two of them, and between them and writes to home blocks by anyone else, every crash image
 is analysed.
 */
module CrashSafety {
  import opened Bytes
  import opened DiskFormat
  import opened Device
  import opened LogFormat
  import opened Replay

  /** The journal as its owner knows it: the live transactions start at offset tail. */
  datatype Log = Log(g: Geometry, tail: nat, next: nat, live: seq<Txn>)

  ghost predicate WellFormed(l: Log, nblocks: nat) {
    && Fits(l.g, nblocks)
    && Readable(l.live)
    && TargetsHome(l.live, l.g, nblocks)
    && |EncodeLog(l.live)| <= l.g.maxlen
    && l.tail + |EncodeLog(l.live)| < EMPTY
    && |l.live| <= l.next < U64
    && Consecutive(l.live, l.next - |l.live|)
  }

  function Head(l: Log): nat
    requires AllEncodable(l.live)
  {
    l.tail + |EncodeLog(l.live)|
  }

  // ---- images ----

  /** The journal superblock v points at the log l. */
  ghost predicate SuperSays(v: Block, l: Log) {
    && Magic(v) == JOURNAL_MAGIC
    && if l.live == [] then SuperStart(v) == EMPTY
       else SuperStart(v) == l.tail && SuperSequence(v) == l.next - |l.live|
  }

  lemma ImageRecovers(img: Image, l: Log)
    requires WellFormed(l, |img|) && LogAt(img, l.g, l.tail, l.live) && Fresh(img, l.g, l.next)
    requires SuperSays(img[JSUPER], l)
    ensures Fits(l.g, |img|) && AllEncodable(l.live) && RecoveredTxns(img, l.g) == l.live
    ensures l.live != [] ==> RecoveredHead(img, l.g) == Head(l)
  {
    hide PhysOf, Magic, SuperStart, SuperSequence, LogAt, Fresh, Scan, ScanEnd, EncodeLog, Consecutive, WellFormed;
    hide Readable;
    WellFormedParts(l, |img|);
    if l.live != [] {
      var want := l.next - |l.live|;
      assert RecoveredTxns(img, l.g) == Scan(img, l.g, l.tail, want, l.g.maxlen + 1);
      assert RecoveredHead(img, l.g) == ScanEnd(img, l.g, l.tail, want, l.g.maxlen + 1);
      LogScans(img, l, want);
    }
  }

  lemma LogScans(img: Image, l: Log, want: nat)
    requires WellFormed(l, |img|) && LogAt(img, l.g, l.tail, l.live) && Fresh(img, l.g, l.next)
    requires want == l.next - |l.live|
    ensures Scan(img, l.g, l.tail, want, l.g.maxlen + 1) == l.live
    ensures ScanEnd(img, l.g, l.tail, want, l.g.maxlen + 1) == Head(l)
  {
    hide PhysOf, LogAt, Fresh, Scan, ScanEnd, EncodeLog, Consecutive, WellFormed, Readable, Encodable, LayoutAgrees;
    Numbers(l, |img|);
    ScanFresh(img, l.g, l.tail, l.live, want, l.g.maxlen + 1);
  }

  lemma Numbers(l: Log, nblocks: nat)
    requires WellFormed(l, nblocks)
    ensures Fits(l.g, nblocks) && Readable(l.live) && Consecutive(l.live, l.next - |l.live|)
    ensures |l.live| <= l.g.maxlen && |l.live| <= l.next < U64
  {}

  // ---- disks ----

  ghost predicate LogHeld(d: Disk, g: Geometry, off: nat, blocks: seq<Block>)
    requires Fits(g, |d.base|)
  {
    forall i :: 0 <= i < |blocks| ==> Holds(d, PhysOf(g, off + i), blocks[i])
  }

  /** v cannot be taken for a commit block numbered n or more. */
  predicate Older(v: Block, n: nat) {
    IsCommit(v) ==> Sequence(v) < n
  }

  ghost predicate BlockOlder(d: Disk, b: nat, n: nat)
    requires b < |d.base|
  {
    forall v :: May(d, b, v) ==> Older(v, n)
  }

  ghost predicate FreshHeld(d: Disk, g: Geometry, n: nat)
    requires Fits(g, |d.base|)
  {
    forall b :: g.first <= b < g.first + g.maxlen ==> BlockOlder(d, b, n)
  }

  ghost predicate SuperHeld(d: Disk, l: Log)
    requires JSUPER < |d.base|
  {
    forall v :: May(d, JSUPER, v) ==> SuperSays(v, l)
  }

  /** Between operations of the journal: every crash image shows exactly the log l. */
  ghost predicate Stable(d: Disk, l: Log) {
    && WellFormed(l, |d.base|)
    && LogHeld(d, l.g, l.tail, EncodeLog(l.live))
    && FreshHeld(d, l.g, l.next)
    && SuperHeld(d, l)
  }

  lemma {:induction false} HeldLogAt(d: Disk, g: Geometry, off: nat, txns: seq<Txn>, img: Image)
    requires Fits(g, |d.base|) && AllEncodable(txns) && LogHeld(d, g, off, EncodeLog(txns)) && CrashImage(d, img)
    ensures LogAt(img, g, off, txns)
  {
    hide PhysOf, EncodeLog, May;
    forall i | 0 <= i < |EncodeLog(txns)| ensures Slot(img, g, off + i) == EncodeLog(txns)[i] {
      assert Holds(d, PhysOf(g, off + i), EncodeLog(txns)[i]);
      assert May(d, PhysOf(g, off + i), img[PhysOf(g, off + i)]);
    }
  }

  lemma HeldFresh(d: Disk, g: Geometry, n: nat, img: Image)
    requires Fits(g, |d.base|) && FreshHeld(d, g, n) && CrashImage(d, img)
    ensures Fresh(img, g, n)
  {
    hide PhysOf, May, IsCommit, Sequence;
    forall b | g.first <= b < g.first + g.maxlen ensures Older(img[b], n) {
      assert BlockOlder(d, b, n) && May(d, b, img[b]);
    }
  }

  /** A crash between operations recovers exactly the live transactions. */
  lemma StableRecovers(d: Disk, l: Log, img: Image)
    requires Stable(d, l) && CrashImage(d, img)
    ensures Fits(l.g, |img|) && AllEncodable(l.live) && RecoveredTxns(img, l.g) == l.live && Fresh(img, l.g, l.next)
    ensures l.live != [] ==> RecoveredHead(img, l.g) == Head(l)
  {
    hide PhysOf, May, SuperSays, LogAt, Fresh, WellFormed, LogHeld, FreshHeld;
    assert Fits(l.g, |d.base|) && AllEncodable(l.live) by {
      WellFormedParts(l, |d.base|);
    }
    HeldLogAt(d, l.g, l.tail, l.live, img);
    HeldFresh(d, l.g, l.next, img);
    assert May(d, JSUPER, img[JSUPER]);
    ImageRecovers(img, l);
  }

  lemma WellFormedParts(l: Log, nblocks: nat)
    requires WellFormed(l, nblocks)
    ensures Fits(l.g, nblocks) && AllEncodable(l.live) && Readable(l.live)
    ensures |EncodeLog(l.live)| <= l.g.maxlen && Head(l) < EMPTY && |l.live| <= l.next < U64
    ensures Consecutive(l.live, l.next - |l.live|)
  {}

  // ---- the script of a commit ----

  function BodyOps(g: Geometry, head: nat, blocks: seq<Block>): (ops: seq<Op>)
    requires g.maxlen > 0
    ensures |ops| == |blocks|
    ensures forall i :: 0 <= i < |ops| ==> ops[i] == Write(PhysOf(g, head + i), blocks[i])
  {
    seq(|blocks|, i requires 0 <= i < |blocks| => Write(PhysOf(g, head + i), blocks[i]))
  }

  lemma BodyOpsSnoc(g: Geometry, head: nat, blocks: seq<Block>, b: Block)
    requires g.maxlen > 0
    ensures BodyOps(g, head, blocks + [b]) == BodyOps(g, head, blocks) + [Write(PhysOf(g, head + |blocks|), b)]
  {
    hide PhysOf;
  }

  lemma NoBodyOps(d: Disk, g: Geometry, head: nat)
    requires g.maxlen > 0
    ensures Run(d, BodyOps(g, head, [])) == d
  {
    assert d.log + [] == d.log;
  }

  function CommitRecord(t: Txn): Block
    requires Encodable(t)
  {
    CommitBlock(t.sequence, ChecksumOf(Body(t)))
  }

  /** Every device operation of one commit, in order. */
  function CommitOps(g: Geometry, head: nat, wasEmpty: bool, t: Txn): (ops: seq<Op>)
    requires g.maxlen > 0 && Encodable(t)
    ensures |ops| == |Body(t)| + (if wasEmpty then 5 else 3)
  {
    BodyOps(g, head, Body(t))
    + [Flush, Write(PhysOf(g, head + |Body(t)|), CommitRecord(t)), Flush]
    + if wasEmpty then [Write(JSUPER, SuperBlock(g.maxlen, g.first, t.sequence, head)), Flush] else []
  }

  /**
   Where a commit's blocks go: block i of the transaction, the commit block being the last,
   to place (head + i) mod maxlen of the region.
   */
  lemma CommitPlaces(g: Geometry, head: nat, wasEmpty: bool, t: Txn, i: nat)
    requires g.maxlen > 0 && Encodable(t) && i < Size(t) && head + Size(t) <= U64
    ensures var ops, k := CommitOps(g, head, wasEmpty, t), if i + 1 < Size(t) then i else i + 1;
            k < |ops| && ops[k] == Write(g.first + (head + i) % g.maxlen, EncodeTxn(t)[i])
    ensures CommitOps(g, head, wasEmpty, t)[Size(t) - 1] == Flush == CommitOps(g, head, wasEmpty, t)[Size(t) + 1]
  {
    hide PhysOf, CommitBlock, ListBlock, ChecksumOf, SuperBlock;
    PhysRing(g, head + i);
    if i + 1 < Size(t) {
      assert CommitOps(g, head, wasEmpty, t)[i] == BodyOps(g, head, Body(t))[i];
    }
  }

  /** A commit writes no home block. */
  lemma CommitOpsAway(g: Geometry, nblocks: nat, head: nat, wasEmpty: bool, t: Txn, k: nat)
    requires Fits(g, nblocks) && Encodable(t) && k < |CommitOps(g, head, wasEmpty, t)|
    ensures var op := CommitOps(g, head, wasEmpty, t)[k]; op.Write? ==> !IsHome(g, nblocks, op.blockno)
  {
    hide PhysOf, Body, CommitRecord, SuperBlock;
    var m := |Body(t)|;
    if k < m {
      assert CommitOps(g, head, wasEmpty, t)[k] == BodyOps(g, head, Body(t))[k];
    }
  }

  /**
   What commit needs: numbers and room, and payloads that are not themselves commit blocks
   with a number still to be given out.
   */
  ghost predicate CanCommit(l: Log, t: Txn, nblocks: nat) {
    && WellFormed(l, nblocks)
    && Encodable(t) && t.sequence == l.next && l.next + 1 < U64
    && |EncodeLog(l.live)| + Size(t) <= l.g.maxlen
    && Head(l) + Size(t) < EMPTY
    && CopiesHome(t.copies, l.g, nblocks)
    && forall i :: 0 <= i < |t.copies| ==> Older(t.copies[i].data, l.next)
  }

  function After(l: Log, t: Txn): Log {
    Log(l.g, l.tail, l.next + 1, l.live + [t])
  }

  // ---- the states inside a commit ----

  ghost predicate BodyWritten(d: Disk, l: Log, t: Txn, k: nat)
    requires CanCommit(l, t, |d.base|)
  {
    && Stable(d, l)
    && forall i :: 0 <= i < k && i < |Body(t)| ==> View(d, PhysOf(l.g, Head(l) + i)) == Body(t)[i]
  }

  ghost predicate BodyDurable(d: Disk, l: Log, t: Txn)
    requires CanCommit(l, t, |d.base|)
  {
    Stable(d, l) && LogHeld(d, l.g, Head(l), Body(t))
  }

  function CommitPos(l: Log, t: Txn): nat
    requires AllEncodable(l.live) && Encodable(t) && l.g.maxlen > 0
  {
    PhysOf(l.g, Head(l) + |Body(t)|)
  }

  ghost predicate OnlyOrOlder(d: Disk, b: nat, only: Block, n: nat)
    requires b < |d.base|
  {
    forall v :: May(d, b, v) ==> v == only || Older(v, n)
  }

  ghost predicate CommitIssued(d: Disk, l: Log, t: Txn)
    requires CanCommit(l, t, |d.base|)
  {
    && LogHeld(d, l.g, l.tail, EncodeLog(l.live))
    && LogHeld(d, l.g, Head(l), Body(t))
    && SuperHeld(d, l)
    && View(d, CommitPos(l, t)) == CommitRecord(t)
    && OnlyOrOlder(d, CommitPos(l, t), CommitRecord(t), l.next)
    && forall b :: l.g.first <= b < l.g.first + l.g.maxlen && b != CommitPos(l, t) ==> BlockOlder(d, b, l.next)
  }

  ghost predicate CommitLogged(d: Disk, l: Log, t: Txn)
    requires CanCommit(l, t, |d.base|)
  {
    && LogHeld(d, l.g, l.tail, EncodeLog(l.live))
    && LogHeld(d, l.g, Head(l), EncodeTxn(t))
    && FreshHeld(d, l.g, l.next + 1)
  }

  ghost predicate CommitDurable(d: Disk, l: Log, t: Txn)
    requires CanCommit(l, t, |d.base|)
  {
    CommitLogged(d, l, t) && SuperHeld(d, l)
  }

  ghost predicate SuperIssued(d: Disk, l: Log, t: Txn)
    requires CanCommit(l, t, |d.base|)
  {
    && CommitLogged(d, l, t)
    && SuperSays(View(d, JSUPER), After(l, t))
    && forall v :: May(d, JSUPER, v) ==> SuperSays(v, l) || SuperSays(v, After(l, t))
  }

  ghost predicate Finished(d: Disk, l: Log, t: Txn)
    requires CanCommit(l, t, |d.base|)
  {
    CommitLogged(d, l, t) && SuperHeld(d, After(l, t))
  }

  /** The disk after the first k operations of the commit of t into l. */
  ghost predicate Mid(d: Disk, l: Log, t: Txn, k: nat) {
    && CanCommit(l, t, |d.base|)
    && var m := |Body(t)|;
       if k <= m then BodyWritten(d, l, t, k)
       else if k == m + 1 then BodyDurable(d, l, t)
       else if k == m + 2 then CommitIssued(d, l, t)
       else if k == m + 3 then CommitDurable(d, l, t)
       else if k == m + 4 then SuperIssued(d, l, t)
       else Finished(d, l, t)
  }

  // ---- operations that leave parts of the disk alone ----

  /** The two disks cannot be told apart on the journal superblock and region. */
  ghost predicate SameJournal(d: Disk, e: Disk, g: Geometry) {
    && Fits(g, |d.base|) && |d.base| == |e.base|
    && forall b :: b == JSUPER || g.first <= b < g.first + g.maxlen ==> SameBlock(d, e, b)
  }

  ghost predicate SameBlock(d: Disk, e: Disk, b: nat)
    requires b < |d.base| == |e.base|
  {
    View(d, b) == View(e, b) && forall v :: May(d, b, v) <==> May(e, b, v)
  }

  /** A write to a home block is invisible to the journal. */
  lemma HomeWriteSame(d: Disk, g: Geometry, b: nat, data: Block)
    requires Fits(g, |d.base|) && IsHome(g, |d.base|, b)
    ensures SameJournal(d, Do(d, Write(b, data)), g)
  {
    hide PhysOf, May, View;
    forall c | c == JSUPER || g.first <= c < g.first + g.maxlen ensures SameBlock(d, Do(d, Write(b, data)), c) {
      DoView(d, Write(b, data), c);
      forall v ensures May(d, c, v) <==> May(Do(d, Write(b, data)), c, v) {
        DoMay(d, Write(b, data), c, v);
      }
    }
  }

  lemma LogHeldSame(d: Disk, e: Disk, g: Geometry, off: nat, blocks: seq<Block>)
    requires SameJournal(d, e, g) && LogHeld(d, g, off, blocks)
    ensures LogHeld(e, g, off, blocks)
  {
    hide PhysOf, May, View;
    forall i | 0 <= i < |blocks| ensures Holds(e, PhysOf(g, off + i), blocks[i]) {
      assert SameBlock(d, e, PhysOf(g, off + i)) && Holds(d, PhysOf(g, off + i), blocks[i]);
    }
  }

  lemma FreshHeldSame(d: Disk, e: Disk, g: Geometry, n: nat)
    requires SameJournal(d, e, g) && FreshHeld(d, g, n)
    ensures FreshHeld(e, g, n)
  {
    hide PhysOf, May, View, Older;
    forall b | g.first <= b < g.first + g.maxlen ensures BlockOlder(e, b, n) {
      assert SameBlock(d, e, b) && BlockOlder(d, b, n);
    }
  }

  lemma StableSame(d: Disk, e: Disk, l: Log)
    requires Stable(d, l) && SameJournal(d, e, l.g)
    ensures Stable(e, l)
  {
    hide PhysOf, May, View, SuperSays, WellFormed, LogHeld, FreshHeld, EncodeLog;
    WellFormedParts(l, |d.base|);
    LogHeldSame(d, e, l.g, l.tail, EncodeLog(l.live));
    FreshHeldSame(d, e, l.g, l.next);
    assert SameBlock(d, e, JSUPER);
  }

  lemma BodySame(d: Disk, e: Disk, l: Log, t: Txn, k: nat)
    requires CanCommit(l, t, |d.base|) && BodyWritten(d, l, t, k) && SameJournal(d, e, l.g)
    ensures BodyWritten(e, l, t, k)
  {
    hide PhysOf, May, View, WellFormed, EncodeLog, Body, Stable, Older;
    CanCommitParts(l, t, |d.base|);
    StableSame(d, e, l);
    forall i | 0 <= i < k && i < |Body(t)| ensures View(e, PhysOf(l.g, Head(l) + i)) == Body(t)[i] {
      assert SameBlock(d, e, PhysOf(l.g, Head(l) + i));
    }
  }

  lemma IssuedSame(d: Disk, e: Disk, l: Log, t: Txn)
    requires CanCommit(l, t, |d.base|) && CommitIssued(d, l, t) && SameJournal(d, e, l.g)
    ensures CommitIssued(e, l, t)
  {
    hide PhysOf, May, View, WellFormed, EncodeLog, Body, Older, SuperSays, CommitRecord, LogHeld;
    CanCommitParts(l, t, |d.base|);
    LogHeldSame(d, e, l.g, l.tail, EncodeLog(l.live));
    LogHeldSame(d, e, l.g, Head(l), Body(t));
    assert SameBlock(d, e, JSUPER) && SameBlock(d, e, CommitPos(l, t));
    forall b | l.g.first <= b < l.g.first + l.g.maxlen && b != CommitPos(l, t) ensures BlockOlder(e, b, l.next) {
      assert SameBlock(d, e, b) && BlockOlder(d, b, l.next);
    }
  }

  lemma LoggedSame(d: Disk, e: Disk, l: Log, t: Txn)
    requires CanCommit(l, t, |d.base|) && CommitLogged(d, l, t) && SameJournal(d, e, l.g)
    ensures CommitLogged(e, l, t)
  {
    hide PhysOf, May, View, WellFormed, EncodeLog, EncodeTxn, Older, LogHeld, FreshHeld;
    CanCommitParts(l, t, |d.base|);
    LogHeldSame(d, e, l.g, l.tail, EncodeLog(l.live));
    LogHeldSame(d, e, l.g, Head(l), EncodeTxn(t));
    FreshHeldSame(d, e, l.g, l.next + 1);
  }

  /** Nothing a commit in progress relies on is disturbed by writes to home blocks. */
  lemma MidSame(d: Disk, e: Disk, l: Log, t: Txn, k: nat)
    requires Mid(d, l, t, k) && SameJournal(d, e, l.g)
    ensures Mid(e, l, t, k)
  {
    hide PhysOf, May, View, SuperSays, EncodeLog, Body, Stable, CommitLogged, CommitIssued, BodyWritten, LogHeld;
    hide CanCommit;
    CanCommitParts(l, t, |d.base|);
    var m := |Body(t)|;
    if k <= m {
      BodySame(d, e, l, t, k);
    } else if k == m + 1 {
      StableSame(d, e, l);
      LogHeldSame(d, e, l.g, Head(l), Body(t));
    } else if k == m + 2 {
      IssuedSame(d, e, l, t);
    } else {
      LoggedSame(d, e, l, t);
      assert SameBlock(d, e, JSUPER);
    }
  }

  lemma CanCommitParts(l: Log, t: Txn, nblocks: nat)
    requires CanCommit(l, t, nblocks)
    ensures WellFormed(l, nblocks) && Fits(l.g, nblocks) && AllEncodable(l.live) && Encodable(t)
    ensures t.sequence == l.next && l.next + 1 < U64
    ensures |EncodeLog(l.live)| + Size(t) <= l.g.maxlen && Head(l) + Size(t) < EMPTY
    ensures |Body(t)| + 1 == Size(t)
    ensures l.g.first <= CommitPos(l, t) < l.g.first + l.g.maxlen
  {}

  // ---- the steps of a commit ----

  /** A slot behind the head is none of the live ones. */
  lemma FreeSlot(l: Log, nblocks: nat, off: nat, i: nat)
    requires WellFormed(l, nblocks) && Head(l) <= off < l.tail + l.g.maxlen && off < U64
    requires i < |EncodeLog(l.live)|
    ensures PhysOf(l.g, off) != PhysOf(l.g, l.tail + i)
  {
    hide PhysOf, EncodeLog;
    PhysDistinct(l.g, l.tail + i, off);
  }

  predicate Misses(op: Op, g: Geometry, off: nat, i: int)
    requires g.maxlen > 0 && 0 <= i
  {
    op.Write? ==> op.blockno != PhysOf(g, off + i)
  }

  lemma LogHeldDo(d: Disk, op: Op, g: Geometry, off: nat, blocks: seq<Block>)
    requires Fits(g, |d.base|) && LogHeld(d, g, off, blocks)
    requires forall i :: 0 <= i < |blocks| ==> Misses(op, g, off, i)
    ensures LogHeld(Do(d, op), g, off, blocks)
  {
    hide PhysOf, May, Holds;
    forall i | 0 <= i < |blocks| ensures Holds(Do(d, op), PhysOf(g, off + i), blocks[i]) {
      assert Misses(op, g, off, i);
      DoHolds(d, op, PhysOf(g, off + i), blocks[i]);
    }
  }

  lemma BlockOlderDo(d: Disk, op: Op, b: nat, n: nat)
    requires b < |d.base| && BlockOlder(d, b, n) && (op.Write? && op.blockno == b ==> Older(op.data, n))
    ensures BlockOlder(Do(d, op), b, n)
  {
    hide PhysOf, May, Older;
    ViewMay(d, b);
    forall v | May(Do(d, op), b, v) ensures Older(v, n) {
      DoMay(d, op, b, v);
    }
  }

  lemma SuperHeldDo(d: Disk, op: Op, l: Log)
    requires JSUPER < |d.base| && SuperHeld(d, l) && (op.Write? ==> op.blockno != JSUPER)
    ensures SuperHeld(Do(d, op), l)
  {
    hide PhysOf, May, SuperSays;
    ViewMay(d, JSUPER);
    forall v | May(Do(d, op), JSUPER, v) ensures SuperSays(v, l) {
      DoMay(d, op, JSUPER, v);
    }
  }

  /** Writing an older block behind the head, or flushing, keeps the log stable. */
  lemma StableDo(d: Disk, op: Op, l: Log, off: nat)
    requires Stable(d, l)
    requires op.Write? ==> Head(l) <= off < l.tail + l.g.maxlen && off < U64
    requires op.Write? ==> op.blockno == PhysOf(l.g, off) && Older(op.data, l.next)
    ensures Stable(Do(d, op), l)
  {
    hide PhysOf, May, SuperSays, WellFormed, LogHeld, FreshHeld, EncodeLog, Older, SuperHeld;
    WellFormedParts(l, |d.base|);
    forall i | 0 <= i < |EncodeLog(l.live)| ensures Misses(op, l.g, l.tail, i) {
      if op.Write? {
        FreeSlot(l, |d.base|, off, i);
      }
    }
    LogHeldDo(d, op, l.g, l.tail, EncodeLog(l.live));
    FreshHeldDo(d, op, l.g, l.next);
    SuperHeldDo(d, op, l);
  }

  lemma FreshHeldDo(d: Disk, op: Op, g: Geometry, n: nat)
    requires Fits(g, |d.base|) && FreshHeld(d, g, n)
    requires op.Write? && g.first <= op.blockno < g.first + g.maxlen ==> Older(op.data, n)
    ensures FreshHeld(Do(d, op), g, n)
  {
    hide PhysOf, May, Older;
    forall b | g.first <= b < g.first + g.maxlen ensures BlockOlder(Do(d, op), b, n) {
      BlockOlderDo(d, op, b, n);
    }
  }

  lemma BodyOlder(l: Log, t: Txn, nblocks: nat, i: nat)
    requires CanCommit(l, t, nblocks) && i < |Body(t)|
    ensures Older(Body(t)[i], l.next)
  {
    hide PhysOf, ListBlock, Magic, Sequence, EncodeLog, WellFormed, Head, Size, CopiesHome;
    var r := |RevokeBlocks(t)|;
    if i == 0 {
      ListBlockReadsBack(DESC_MAGIC, t.sequence, Targets(t));
    } else if i <= r {
      ListBlockReadsBack(REVOKE_MAGIC, t.sequence, RevokedBlocks(t));
    } else {
      assert Body(t)[i] == Payloads(t)[i - 1 - r];
      assert Older(t.copies[i - 1 - r].data, l.next);
    }
  }

  /** Step k < |Body|: one block of the body, unflushed. */
  lemma StepBody(d: Disk, l: Log, t: Txn, k: nat)
    requires Mid(d, l, t, k) && k < |Body(t)|
    ensures Mid(Do(d, Write(PhysOf(l.g, Head(l) + k), Body(t)[k])), l, t, k + 1)
  {
    hide PhysOf, May, View, WellFormed, EncodeLog, Body, Older, Stable;
    CanCommitParts(l, t, |d.base|);
    var op := Write(PhysOf(l.g, Head(l) + k), Body(t)[k]);
    BodyOlder(l, t, |d.base|, k);
    StableDo(d, op, l, Head(l) + k);
    forall i | 0 <= i < k + 1 && i < |Body(t)| ensures View(Do(d, op), PhysOf(l.g, Head(l) + i)) == Body(t)[i] {
      DoView(d, op, PhysOf(l.g, Head(l) + i));
      if i < k {
        PhysDistinct(l.g, Head(l) + i, Head(l) + k);
      }
    }
  }

  /** The flush before the commit block. */
  lemma StepPreflush(d: Disk, l: Log, t: Txn)
    requires CanCommit(l, t, |d.base|) && Mid(d, l, t, |Body(t)|)
    ensures Mid(Do(d, Flush), l, t, |Body(t)| + 1)
  {
    hide PhysOf, May, View, WellFormed, EncodeLog, Body, Older, Stable, Holds;
    CanCommitParts(l, t, |d.base|);
    StableDo(d, Flush, l, 0);
    forall i | 0 <= i < |Body(t)| ensures Holds(Do(d, Flush), PhysOf(l.g, Head(l) + i), Body(t)[i]) {
      FlushHolds(d, PhysOf(l.g, Head(l) + i));
    }
  }

  /** The commit block is issued: now a crash may show either outcome. */
  lemma StepCommit(d: Disk, l: Log, t: Txn)
    requires CanCommit(l, t, |d.base|) && Mid(d, l, t, |Body(t)| + 1)
    ensures Mid(Do(d, Write(CommitPos(l, t), CommitRecord(t))), l, t, |Body(t)| + 2)
  {
    hide PhysOf, May, View, WellFormed, EncodeLog, Body, Older, LogHeld, SuperHeld, CommitRecord;
    CanCommitParts(l, t, |d.base|);
    var c := CommitPos(l, t);
    var op := Write(c, CommitRecord(t));
    forall i | 0 <= i < |EncodeLog(l.live)| ensures Misses(op, l.g, l.tail, i) {
      FreeSlot(l, |d.base|, Head(l) + |Body(t)|, i);
    }
    LogHeldDo(d, op, l.g, l.tail, EncodeLog(l.live));
    forall i | 0 <= i < |Body(t)| ensures Misses(op, l.g, Head(l), i) {
      PhysDistinct(l.g, Head(l) + i, Head(l) + |Body(t)|);
    }
    LogHeldDo(d, op, l.g, Head(l), Body(t));
    SuperHeldDo(d, op, l);
    DoView(d, op, c);
    forall v | May(Do(d, op), c, v) ensures v == CommitRecord(t) || Older(v, l.next) {
      DoMay(d, op, c, v);
      assert BlockOlder(d, c, l.next);
    }
    forall b | l.g.first <= b < l.g.first + l.g.maxlen && b != c ensures BlockOlder(Do(d, op), b, l.next) {
      BlockOlderDo(d, op, b, l.next);
    }
  }

  lemma CommitRecordOlder(t: Txn)
    requires Encodable(t)
    ensures Older(CommitRecord(t), t.sequence + 1)
  {
    hide PhysOf, CommitBlock, ChecksumOf, Sequence, IsCommit;
    CommitBlockReadsBack(t.sequence, ChecksumOf(Body(t)));
  }

  lemma OlderLater(v: Block, n: nat)
    requires Older(v, n)
    ensures Older(v, n + 1)
  {
    hide PhysOf, IsCommit, Sequence;
  }

  /** The commit block is flushed: the transaction is in the log for good. */
  lemma StepCommitFlush(d: Disk, l: Log, t: Txn)
    requires CanCommit(l, t, |d.base|) && Mid(d, l, t, |Body(t)| + 2)
    ensures Mid(Do(d, Flush), l, t, |Body(t)| + 3)
  {
    hide PhysOf, May, View, WellFormed, EncodeLog, Body, Older, SuperHeld, CommitBlock, ChecksumOf, Holds;
    CanCommitParts(l, t, |d.base|);
    var e, c := Do(d, Flush), CommitPos(l, t);
    LogHeldDo(d, Flush, l.g, l.tail, EncodeLog(l.live));
    LogHeldDo(d, Flush, l.g, Head(l), Body(t));
    SuperHeldDo(d, Flush, l);
    FlushHolds(d, c);
    forall i | 0 <= i < |EncodeTxn(t)| ensures Holds(e, PhysOf(l.g, Head(l) + i), EncodeTxn(t)[i]) {
      if i < |Body(t)| {
        assert Holds(e, PhysOf(l.g, Head(l) + i), Body(t)[i]);
      }
    }
    var n := l.next + 1;
    forall b | l.g.first <= b < l.g.first + l.g.maxlen ensures BlockOlder(e, b, n) {
      CommitFlushOlder(d, l, t, b);
    }
  }

  lemma CommitFlushOlder(d: Disk, l: Log, t: Txn, b: nat)
    requires CanCommit(l, t, |d.base|) && CommitIssued(d, l, t)
    requires l.g.first <= b < l.g.first + l.g.maxlen
    ensures BlockOlder(Do(d, Flush), b, l.next + 1)
  {
    hide PhysOf, May, View, WellFormed, EncodeLog, Body, Older, SuperHeld, LogHeld, CommitRecord;
    CanCommitParts(l, t, |d.base|);
    CommitRecordOlder(t);
    ViewMay(d, b);
    if b != CommitPos(l, t) {
      assert BlockOlder(d, b, l.next);
      OlderLater(View(d, b), l.next);
    }
    var e := Do(d, Flush);
    forall v | May(e, b, v) ensures Older(v, l.next + 1) {
      DoMay(d, Flush, b, v);
    }
  }

  function NewSuper(l: Log, t: Txn): Block
    requires AllEncodable(l.live)
  {
    SuperBlock(l.g.maxlen, l.g.first, t.sequence, Head(l))
  }

  lemma NewSuperSays(l: Log, t: Txn, nblocks: nat)
    requires CanCommit(l, t, nblocks) && l.live == []
    ensures SuperSays(NewSuper(l, t), After(l, t))
  {
    hide PhysOf, SuperBlock, Magic, SuperStart, SuperSequence;
    assert EncodeLog([]) == [];
    SuperBlockReadsBack(l.g.maxlen, l.g.first, t.sequence, Head(l));
  }

  /** The first commit into an empty log also points the superblock at itself. */
  lemma StepSuper(d: Disk, l: Log, t: Txn)
    requires CanCommit(l, t, |d.base|) && Mid(d, l, t, |Body(t)| + 3) && l.live == []
    ensures Mid(Do(d, Write(JSUPER, NewSuper(l, t))), l, t, |Body(t)| + 4)
  {
    hide PhysOf, May, View, WellFormed, EncodeLog, Body, LogHeld, EncodeTxn, NewSuper, SuperSays, Older;
    CanCommitParts(l, t, |d.base|);
    var op := Write(JSUPER, NewSuper(l, t));
    NewSuperSays(l, t, |d.base|);
    LogHeldDo(d, op, l.g, l.tail, EncodeLog(l.live));
    LogHeldDo(d, op, l.g, Head(l), EncodeTxn(t));
    FreshHeldDo(d, op, l.g, l.next + 1);
    DoView(d, op, JSUPER);
    forall v | May(Do(d, op), JSUPER, v) ensures SuperSays(v, l) || SuperSays(v, After(l, t)) {
      DoMay(d, op, JSUPER, v);
    }
  }

  lemma StepSuperFlush(d: Disk, l: Log, t: Txn)
    requires CanCommit(l, t, |d.base|) && Mid(d, l, t, |Body(t)| + 4)
    ensures Mid(Do(d, Flush), l, t, |Body(t)| + 5)
  {
    hide PhysOf, May, View, WellFormed, EncodeLog, Body, LogHeld, EncodeTxn, SuperSays, Older;
    CanCommitParts(l, t, |d.base|);
    LogHeldDo(d, Flush, l.g, l.tail, EncodeLog(l.live));
    LogHeldDo(d, Flush, l.g, Head(l), EncodeTxn(t));
    FreshHeldDo(d, Flush, l.g, l.next + 1);
    var e := Do(d, Flush);
    forall v | May(e, JSUPER, v) ensures SuperSays(v, After(l, t)) {
      DoMay(d, Flush, JSUPER, v);
    }
  }

  /** Every operation of the script moves the commit one step on. */
  lemma CommitStep(d: Disk, l: Log, t: Txn, k: nat)
    requires CanCommit(l, t, |d.base|)
    requires Mid(d, l, t, k) && k < |CommitOps(l.g, Head(l), l.live == [], t)|
    ensures Mid(Do(d, CommitOps(l.g, Head(l), l.live == [], t)[k]), l, t, k + 1)
  {
    hide PhysOf, Mid, Body, CommitRecord, EncodeLog, SuperBlock, WellFormed, Older;
    CanCommitParts(l, t, |d.base|);
    var m := |Body(t)|;
    var ops := CommitOps(l.g, Head(l), l.live == [], t);
    if k < m {
      assert ops[k] == BodyOps(l.g, Head(l), Body(t))[k];
      StepBody(d, l, t, k);
    } else if k == m {
      StepPreflush(d, l, t);
    } else if k == m + 1 {
      StepCommit(d, l, t);
    } else if k == m + 2 {
      StepCommitFlush(d, l, t);
    } else if k == m + 3 {
      StepSuper(d, l, t);
    } else {
      StepSuperFlush(d, l, t);
    }
  }

  // ---- what a crash inside a commit shows ----

  /** After the last operation of a commit into a log that was not empty. */
  lemma NonemptyFinished(d: Disk, l: Log, t: Txn)
    requires CanCommit(l, t, |d.base|) && CommitDurable(d, l, t) && l.live != []
    ensures Finished(d, l, t)
  {
    hide PhysOf, May, CommitLogged, Magic, SuperStart, SuperSequence, WellFormed, EncodeLog;
  }

  lemma AfterWellFormed(l: Log, t: Txn, nblocks: nat)
    requires CanCommit(l, t, nblocks) && LayoutAgrees(t)
    ensures WellFormed(After(l, t), nblocks)
    ensures EncodeLog(After(l, t).live) == EncodeLog(l.live) + EncodeTxn(t)
  {
    hide PhysOf, EncodeLog, EncodeTxn, Older, LayoutAgrees, Encodable;
    EncodeLogSnoc(l.live, t);
    var live := l.live + [t];
    forall i | 0 <= i < |live| ensures live[i].sequence == (l.next + 1 - |live| + i) % U64 && LayoutAgrees(live[i]) {
      assert i < |l.live| ==> live[i] == l.live[i];
    }
  }

  lemma FinishedStable(d: Disk, l: Log, t: Txn)
    requires CanCommit(l, t, |d.base|) && Finished(d, l, t) && LayoutAgrees(t)
    ensures Stable(d, After(l, t))
  {
    hide PhysOf, May, WellFormed, EncodeLog, EncodeTxn, Older, LayoutAgrees, SuperHeld, Holds;
    CanCommitParts(l, t, |d.base|);
    AfterWellFormed(l, t, |d.base|);
    var blocks := EncodeLog(After(l, t).live);
    forall i | 0 <= i < |blocks| ensures Holds(d, PhysOf(l.g, l.tail + i), blocks[i]) {
      if i < |EncodeLog(l.live)| {
        assert Holds(d, PhysOf(l.g, l.tail + i), EncodeLog(l.live)[i]);
      } else {
        var j := i - |EncodeLog(l.live)|;
        assert Holds(d, PhysOf(l.g, Head(l) + j), EncodeTxn(t)[j]);
      }
    }
  }
}
