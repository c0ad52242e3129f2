/**
 Mounts that find the log empty. They start again at offset 0 with number 1, whatever the
 region still holds, so the first commit may stand right before a transaction of an earlier
 mount that carries the next number.
 */
module Remount {
  import opened Bytes
  import opened DiskFormat
  import opened Device
  import opened LogFormat
  import opened Replay
  import opened CrashSafety
  import opened CrashOutcome

  // ---- what a script leaves in each block ----

  /** Offset off lies in the n slots from head on. */
  ghost predicate InSlots(g: Geometry, head: nat, n: nat, b: nat)
    requires g.maxlen > 0
  {
    exists i: nat :: SlotIs(g, head, n, b, i)
  }

  predicate SlotIs(g: Geometry, head: nat, n: nat, b: nat, i: nat)
    requires g.maxlen > 0
  {
    i < n && PhysOf(g, head + i) == b
  }

  lemma {:induction false} BodyView(d: Disk, g: Geometry, head: nat, blocks: seq<Block>, b: nat)
    requires Fits(g, |d.base|) && |blocks| <= g.maxlen && head + |blocks| <= U64 && b < |d.base|
    ensures forall i: nat :: SlotIs(g, head, |blocks|, b, i) ==> View(Run(d, BodyOps(g, head, blocks)), b) == blocks[i]
    ensures !InSlots(g, head, |blocks|, b) ==> View(Run(d, BodyOps(g, head, blocks)), b) == View(d, b)
    decreases |blocks|
  {
    hide PhysOf, View, BodyOps;
    if blocks == [] {
      NoBodyOps(d, g, head);
    } else {
      var n := |blocks| - 1;
      var front := blocks[..n];
      assert blocks == front + [blocks[n]];
      BodyOpsSnoc(g, head, front, blocks[n]);
      RunSnoc(d, BodyOps(g, head, front), Write(PhysOf(g, head + n), blocks[n]));
      DoView(Run(d, BodyOps(g, head, front)), Write(PhysOf(g, head + n), blocks[n]), b);
      BodyView(d, g, head, front, b);
      assert SlotIs(g, head, |blocks|, PhysOf(g, head + n), n);
      forall i: nat | SlotIs(g, head, |blocks|, b, i)
        ensures i < n ==> SlotIs(g, head, n, b, i) && b != PhysOf(g, head + n)
      {
        if i < n {
          PhysDistinct(g, head + i, head + n);
        }
      }
      forall i: nat | SlotIs(g, head, n, b, i) ensures SlotIs(g, head, |blocks|, b, i) {
      }
    }
  }

  /** The disk after the first commit of a session, which sets the superblock. */
  function FirstCommit(d: Disk, g: Geometry, head: nat, u: Txn): (e: Disk)
    requires g.maxlen > 0 && Encodable(u)
    ensures e.base == d.base
  {
    Run(d, CommitOps(g, head, true, u))
  }

  lemma {:induction false} FirstCommitView(d: Disk, g: Geometry, head: nat, u: Txn, b: nat)
    requires Fits(g, |d.base|) && Encodable(u) && Size(u) <= g.maxlen && head + Size(u) <= U64 && b < |d.base|
    ensures Holds(FirstCommit(d, g, head, u), b, View(FirstCommit(d, g, head, u), b))
    ensures forall i: nat :: SlotIs(g, head, Size(u), b, i)
              ==> View(FirstCommit(d, g, head, u), b) == EncodeTxn(u)[i]
    ensures b == JSUPER ==> View(FirstCommit(d, g, head, u), b) == SuperBlock(g.maxlen, g.first, u.sequence, head)
    ensures !InSlots(g, head, Size(u), b) && b != JSUPER ==> View(FirstCommit(d, g, head, u), b) == View(d, b)
  {
    hide PhysOf, View, May, Body, CommitRecord, SuperBlock, CommitBlock, ChecksumOf, BodyOps;
    CommitRecordLast(u);
    var n := |Body(u)|;
    var c, s := Write(PhysOf(g, head + n), CommitRecord(u)),
                Write(JSUPER, SuperBlock(g.maxlen, g.first, u.sequence, head));
    var d0 := Run(d, BodyOps(g, head, Body(u)));
    var d1 := Do(d0, Flush);
    var d2 := Do(d1, c);
    var d3 := Do(d2, Flush);
    var d4 := Do(d3, s);
    assert FirstCommit(d, g, head, u) == Do(d4, Flush) by {
      assert d.log + CommitOps(g, head, true, u) == Do(d4, Flush).log;
    }
    BodyView(d, g, head, Body(u), b);
    DoView(d0, Flush, b);
    DoView(d1, c, b);
    DoView(d2, Flush, b);
    DoView(d3, s, b);
    DoView(d4, Flush, b);
    FlushHolds(d4, b);
    SlotsBehind(g, head, n, b);
    forall i: nat | SlotIs(g, head, n + 1, b, i) ensures View(Do(d4, Flush), b) == EncodeTxn(u)[i] {
      assert InSlots(g, head, n + 1, b);
      assert i < n ==> SlotIs(g, head, n, b, i) && EncodeTxn(u)[i] == Body(u)[i];
    }
  }

  lemma CommitRecordLast(u: Txn)
    requires Encodable(u)
    ensures |Body(u)| + 1 == Size(u) && EncodeTxn(u) == Body(u) + [CommitRecord(u)]
  {}

  /** The slots of a transaction are those of its body and the one of its commit block. */
  lemma SlotsBehind(g: Geometry, head: nat, n: nat, b: nat)
    requires 0 < g.maxlen && n + 1 <= g.maxlen && head + n < U64
    ensures InSlots(g, head, n + 1, b) <==> InSlots(g, head, n, b) || b == PhysOf(g, head + n)
    ensures forall i: nat :: SlotIs(g, head, n + 1, b, i)
              ==> (if i < n then SlotIs(g, head, n, b, i) && b != PhysOf(g, head + n) else b == PhysOf(g, head + n))
    ensures InSlots(g, head, n + 1, b) ==> g.first <= b < g.first + g.maxlen
  {
    hide PhysOf;
    forall i: nat | SlotIs(g, head, n + 1, b, i)
      ensures if i < n then SlotIs(g, head, n, b, i) && b != PhysOf(g, head + n) else b == PhysOf(g, head + n)
    {
      if i < n {
        PhysDistinct(g, head + i, head + n);
      }
    }
    if InSlots(g, head, n, b) {
      var i: nat :| SlotIs(g, head, n, b, i);
      assert SlotIs(g, head, n + 1, b, i);
    }
    if InSlots(g, head, n + 1, b) {
      var i: nat :| SlotIs(g, head, n + 1, b, i);
      assert i < n ==> SlotIs(g, head, n, b, i);
    }
    assert b == PhysOf(g, head + n) ==> SlotIs(g, head, n + 1, b, n);
  }

  /** What every crash image shows after that commit: the transaction and the superblock. */
  lemma FirstCommitImage(d: Disk, g: Geometry, head: nat, u: Txn, img: Image)
    requires Fits(g, |d.base|) && Encodable(u) && Size(u) <= g.maxlen && head + Size(u) < EMPTY
    requires u.sequence < U64 && CrashImage(FirstCommit(d, g, head, u), img)
    ensures TxnAt(img, g, head, u)
    ensures SuperStart(img[JSUPER]) == head && SuperSequence(img[JSUPER]) == u.sequence
  {
    hide PhysOf, View, May, EncodeTxn, SuperBlock, SuperStart, SuperSequence, Magic, FirstCommit;
    var e := FirstCommit(d, g, head, u);
    forall i | 0 <= i < Size(u) ensures Slot(img, g, head + i) == EncodeTxn(u)[i] {
      var b := PhysOf(g, head + i);
      FirstCommitView(d, g, head, u, b);
      assert May(e, b, img[b]) && SlotIs(g, head, Size(u), b, i);
    }
    FirstCommitView(d, g, head, u, JSUPER);
    assert May(e, JSUPER, img[JSUPER]);
    SuperBlockReadsBack(g.maxlen, g.first, u.sequence, head);
  }

  /** Slots behind those of the transaction keep what every crash image showed there. */
  lemma BehindKept(d: Disk, g: Geometry, head: nat, u: Txn, stale: Txn, img: Image)
    requires Fits(g, |d.base|) && Encodable(u) && Encodable(stale)
    requires Size(u) + Size(stale) <= g.maxlen && head + Size(u) + Size(stale) < EMPTY
    requires LogHeld(d, g, head + Size(u), EncodeTxn(stale))
    requires CrashImage(FirstCommit(d, g, head, u), img)
    ensures TxnAt(img, g, head + Size(u), stale)
  {
    hide PhysOf, View, May, EncodeTxn, FirstCommit, Holds;
    var e, off := FirstCommit(d, g, head, u), head + Size(u);
    forall i | 0 <= i < Size(stale) ensures Slot(img, g, off + i) == EncodeTxn(stale)[i] {
      var b := PhysOf(g, off + i);
      assert Holds(d, b, EncodeTxn(stale)[i]);
      HeldView(d, b, EncodeTxn(stale)[i]);
      SlotsApart(g, head, Size(u), off + i);
      FirstCommitView(d, g, head, u, b);
      assert May(e, b, img[b]);
      HoldsOnly(e, b, View(e, b), img[b]);
    }
  }

  /** A slot behind the first n, less than a region length on, is none of them. */
  lemma SlotsApart(g: Geometry, head: nat, n: nat, off: nat)
    requires 0 < g.maxlen && head + n <= off < head + g.maxlen && off < U64
    ensures !InSlots(g, head, n, PhysOf(g, off))
  {
    hide PhysOf;
    if InSlots(g, head, n, PhysOf(g, off)) {
      var j: nat :| SlotIs(g, head, n, PhysOf(g, off), j);
      PhysDistinct(g, head + j, off);
    }
  }

  lemma {:induction false} HoldsOnly(d: Disk, b: nat, v: Block, w: Block)
    requires b < |d.base| && Holds(d, b, v) && May(d, b, w)
    ensures w == v
  {}

  lemma JustOne(img: Image, g: Geometry, off: nat, u: Txn)
    requires Fits(g, |img|) && Encodable(u) && TxnAt(img, g, off, u)
    ensures AllEncodable([u]) && |EncodeLog([u])| == Size(u) && LogAt(img, g, off, [u])
  {
    hide PhysOf, EncodeTxn, Slots;
    OnlyOne(u);
  }

  // ---- what a crash after it recovers ----

  /**
   After the first commit of a session, in every crash image, exactly its transaction is
   recovered if and only if no valid transaction with the next number stands behind it.
   */
  lemma FirstCommitExact(d: Disk, g: Geometry, head: nat, u: Txn, img: Image)
    requires Fits(g, |d.base|) && Encodable(u) && LayoutAgrees(u)
    requires Size(u) <= g.maxlen && head + Size(u) < EMPTY && u.sequence < U64
    requires CrashImage(FirstCommit(d, g, head, u), img)
    ensures RecoveredTxns(img, g) == [u] <==> ParseAt(img, g, head + Size(u), u.sequence + 1) == NoTxn
  {
    hide PhysOf, EncodeTxn, EncodeLog, ParseAt, SuperStart, SuperSequence, FirstCommit, TxnAt, LogAt, Scan;
    FirstCommitImage(d, g, head, u, img);
    JustOne(img, g, head, u);
    ScanExact(img, g, head, [u], u.sequence, g.maxlen + 1);
  }

  /** A transaction of an earlier mount stands right behind where the next commit will end. */
  ghost predicate StandsBehind(d: Disk, g: Geometry, u: Txn, stale: Txn)
    requires Fits(g, |d.base|)
  {
    && Encodable(u) && LayoutAgrees(u) && Encodable(stale) && LayoutAgrees(stale)
    && stale.sequence == 2
    && Size(u) + Size(stale) <= g.maxlen && Size(u) + Size(stale) < EMPTY
    && LogHeld(d, g, Size(u), EncodeTxn(stale))
  }

  /**
   A mount that finds the log empty gives its first commit offset 0 and number 1. If the
   region still holds a transaction numbered 2 right behind that commit, every crash image
   after the commit replays it as well.
   */
  lemma StaleReplayed(d: Disk, g: Geometry, u: Txn, stale: Txn, img: Image)
    requires Fits(g, |d.base|) && SuperStart(d.base[JSUPER]) == EMPTY
    requires u.sequence == RecoveredNext(d.base, g) && StandsBehind(d, g, u, stale)
    requires CrashImage(FirstCommit(d, g, RecoveredHead(d.base, g), u), img)
    ensures RecoveredTxns(d.base, g) == [] && [u, stale] <= RecoveredTxns(img, g)
    ensures RecoveredTxns(img, g) == [u, stale] <==> ParseAt(img, g, Size(u) + Size(stale), 3) == NoTxn
  {
    hide PhysOf, EncodeTxn, EncodeLog, ParseAt, SuperStart, SuperSequence, FirstCommit, TxnAt, LogAt, LogHeld;
    FirstCommitImage(d, g, 0, u, img);
    BehindKept(d, g, 0, u, stale, img);
    JustOne(img, g, 0, u);
    LogThenTxn(img, g, 0, [u], stale);
    assert [u] + [stale] == [u, stale];
    EncodeLogSnoc([u], stale);
    ScanReads(img, g, 0, [u, stale], 1, g.maxlen + 1);
    ScanExact(img, g, 0, [u, stale], 1, g.maxlen + 1);
  }

  /** Then a block that both transactions log recovers as the stale copy. */
  lemma {:induction false} StaleWins(d: Disk, g: Geometry, u: Txn, stale: Txn, img: Image, b: nat)
    requires Fits(g, |d.base|) && SuperStart(d.base[JSUPER]) == EMPTY
    requires u.sequence == RecoveredNext(d.base, g) && StandsBehind(d, g, u, stale)
    requires CrashImage(FirstCommit(d, g, RecoveredHead(d.base, g), u), img)
    requires ParseAt(img, g, Size(u) + Size(stale), 3) == NoTxn && NoRevokes([u, stale])
    requires b < |img| && LastCopy(stale.copies, b).Some?
    ensures RecoveredBlock(img, g, b) == LastCopy(stale.copies, b).value
  {
    hide PhysOf, ParseAt, SuperStart, SuperSequence, FirstCommit, StandsBehind, RecoveredTxns, Replayed;
    StaleReplayed(d, g, u, stale, img);
    PlainReplay([u, stale], b);
    assert [u, stale] == [u] + [stale];
    NewestSnoc([u], stale, b);
  }

  // ---- how it comes about ----

  /** An uninterrupted recovery leaves the journal region as it found it. */
  lemma RecoveryKeepsRegion(img: Image, g: Geometry, after: Image, b: nat)
    requires Fits(g, |img|) && TargetsHome(RecoveredTxns(img, g), g, |img|)
    requires CrashImage(Run(Disk(img, []), RecoverOps(img, g)), after)
    ensures SuperStart(after[JSUPER]) == EMPTY
    ensures g.first <= b < g.first + g.maxlen ==> after[b] == img[b]
  {
    hide RecoveredTxns, Replayed, EmptySuper, View, May, SuperStart, Magic;
    var all := Replayed(RecoveredTxns(img, g));
    ReplayedHome(RecoveredTxns(img, g), g, |img|);
    var d0, installs := Disk(img, []), InstallOps(all);
    var d1 := Run(d0, installs);
    var d2 := Do(d1, Write(JSUPER, EmptySuper(g)));
    assert Do(d2, Flush).log == installs + [Write(JSUPER, EmptySuper(g)), Flush];
    assert Run(d0, RecoverOps(img, g)) == Do(d2, Flush);
    EmptySuperReads(g);
    DoView(d1, Write(JSUPER, EmptySuper(g)), JSUPER);
    FlushHolds(d2, JSUPER);
    assert May(Do(d2, Flush), JSUPER, after[JSUPER]);
    if g.first <= b < g.first + g.maxlen {
      DoView(d1, Write(JSUPER, EmptySuper(g)), b);
      FlushHolds(d2, b);
      InstallView(d0, all, b);
      LastCopyIndex(all, b);
      FreshDiskView(img, b);
      assert May(Do(d2, Flush), b, after[b]);
    }
  }

  lemma UnwrittenHolds(img: Image, b: nat)
    requires b < |img|
    ensures Holds(Disk(img, []), b, img[b])
  {}

  /**
   The history: a session logs two transactions and crashes; recovery replays both and
   returns; the next mount finds the log empty. If its first commit is as long as the first
   of the two, every crash after that commit replays the second one, which is dead, again.
   */
  lemma DeadReplayedAgain(d: Disk, g: Geometry, first: Txn, stale: Txn, crash: Image, mount: Image, u: Txn, img: Image)
    requires Stable(d, Log(g, 0, 3, [first, stale])) && CrashImage(d, crash)
    requires CrashImage(Run(Disk(crash, []), RecoverOps(crash, g)), mount)
    requires Encodable(u) && LayoutAgrees(u) && Size(u) == Size(first) && u.sequence == RecoveredNext(mount, g)
    requires CrashImage(FirstCommit(Disk(mount, []), g, RecoveredHead(mount, g), u), img)
    ensures RecoveredTxns(crash, g) == [first, stale] && RecoveredTxns(mount, g) == []
    ensures [u, stale] <= RecoveredTxns(img, g)
  {
    hide PhysOf, EncodeTxn, EncodeLog, SuperStart, SuperSequence, FirstCommit, TxnAt, LogAt, SuperHeld, FreshHeld;
    hide RecoveredTxns, RecoverOps, May, Holds, Magic, SuperSays;
    var l := Log(g, 0, 3, [first, stale]);
    StableRecovers(d, l, crash);
    WellFormedParts(l, |d.base|);
    HeldLogAt(d, g, 0, l.live, crash);
    assert l.live == [first] + [stale] && l.live[1].sequence == (1 + 1) % U64;
    assert Encodable(l.live[0]) && Encodable(l.live[1]);
    LogAtSplit(crash, g, 0, first, [stale]);
    OnlyOne(stale);
    EncodeLogConcat([first], [stale]);
    OnlyOne(first);
    forall i | 0 <= i < Size(stale) ensures Holds(Disk(mount, []), PhysOf(g, Size(u) + i), EncodeTxn(stale)[i]) {
      var b := PhysOf(g, Size(u) + i);
      RecoveryKeepsRegion(crash, g, mount, b);
      UnwrittenHolds(mount, b);
      StaleSlot(crash, g, Size(u), stale, i);
    }
    RecoveryKeepsRegion(crash, g, mount, 0);
    StaleReplayed(Disk(mount, []), g, u, stale, img);
  }

  lemma OnlyOne(t: Txn)
    requires Encodable(t)
    ensures AllEncodable([t]) && EncodeLog([t]) == EncodeTxn(t)
  {
    hide EncodeTxn;
    EncodeLogSnoc([], t);
    assert [] + [t] == [t] && EncodeLog([]) == [];
  }

  lemma StaleSlot(img: Image, g: Geometry, off: nat, t: Txn, i: nat)
    requires Fits(g, |img|) && AllEncodable([t]) && Encodable(t) && LogAt(img, g, off, [t]) && i < Size(t)
    ensures img[PhysOf(g, off + i)] == EncodeTxn(t)[i]
  {
    hide PhysOf, EncodeTxn;
    OnlyOne(t);
    assert Slots(img, g, off, Size(t))[i] == Slot(img, g, off + i);
  }
}
