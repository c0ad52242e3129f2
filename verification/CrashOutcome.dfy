/**
 What recovery makes of a crash inside a commit: all of the transaction or nothing of it,
 and a log a new session can go on from.
 */
module CrashOutcome {
  import opened Bytes
  import opened DiskFormat
  import opened Device
  import opened LogFormat
  import opened Replay
  import opened CrashSafety

  // ---- images ----

  lemma {:induction false} LogThenTxn(img: Image, g: Geometry, off: nat, live: seq<Txn>, t: Txn)
    requires Fits(g, |img|) && AllEncodable(live) && Encodable(t)
    requires LogAt(img, g, off, live) && TxnAt(img, g, off + |EncodeLog(live)|, t)
    ensures AllEncodable(live + [t]) && LogAt(img, g, off, live + [t])
  {
    hide PhysOf, EncodeLog, EncodeTxn, Slot;
    EncodeLogSnoc(live, t);
    var n, all := |EncodeLog(live)|, EncodeLog(live + [t]);
    forall i | 0 <= i < |all| ensures Slots(img, g, off, |all|)[i] == all[i] {
      if i < n {
        assert Slots(img, g, off, n)[i] == Slot(img, g, off + i);
      } else {
        assert Slots(img, g, off + n, Size(t))[i - n] == Slot(img, g, off + n + (i - n));
      }
    }
  }

  /** The log with t behind it, in an agreed layout, recovers as exactly that. */
  lemma ImageAfter(img: Image, l: Log, t: Txn)
    requires CanCommit(l, t, |img|) && LayoutAgrees(t) && Fits(l.g, |img|)
    requires AllEncodable(l.live) && Encodable(t)
    requires LogAt(img, l.g, l.tail, l.live) && TxnAt(img, l.g, Head(l), t) && Fresh(img, l.g, l.next + 1)
    requires SuperSays(img[JSUPER], After(l, t))
    ensures RecoveredTxns(img, l.g) == l.live + [t] && RecoveredHead(img, l.g) == Head(l) + Size(t)
  {
    hide PhysOf, EncodeLog, EncodeTxn, LogAt, TxnAt, Fresh, SuperSays, WellFormed, CanCommit, RecoveredTxns;
    hide RecoveredHead;
    AfterWellFormed(l, t, |img|);
    LogThenTxn(img, l.g, l.tail, l.live, t);
    ImageRecovers(img, After(l, t));
  }

  /** What the scan makes of the log with t behind it, whatever the layout. */
  lemma {:induction false} ScanBehind(img: Image, l: Log, t: Txn)
    requires CanCommit(l, t, |img|) && Fits(l.g, |img|) && AllEncodable(l.live) && Encodable(t) && |l.live| <= l.next
    requires LogAt(img, l.g, l.tail, l.live) && TxnAt(img, l.g, Head(l), t) && Fresh(img, l.g, l.next + 1)
    ensures Scan(img, l.g, l.tail, l.next - |l.live|, l.g.maxlen + 1) == l.live + [t]
       <==> LayoutAgrees(t) || Mirrors(t)
  {
    hide PhysOf, EncodeLog, EncodeTxn, LogAt, TxnAt, WellFormed, ParseAt, Consecutive, Readable, Body, Older;
    hide IsHome, Fresh;
    hide Mirrors, LayoutAgrees;
    CanCommitParts(l, t, |img|);
    Numbers(l, |img|);
    var want, n := l.next - |l.live|, l.g.maxlen + 1 - |l.live|;
    assert want + |l.live| == l.next;
    ScanReads(img, l.g, l.tail, l.live, want, l.g.maxlen + 1);
    ParseExact(img, l.g, Head(l), t, l.next);
    var p := ParseAt(img, l.g, Head(l), l.next);
    var rest := Scan(img, l.g, Head(l), l.next, n);
    if p.Parsed? && p.txn == t {
      FreshStops(img, l.g, p.next, l.next + 1);
      assert rest == [t];
    } else {
      assert rest != [] ==> rest[0] != t;
      assert (l.live + rest)[|l.live|..] == rest && (l.live + [t])[|l.live|..] == [t];
    }
  }

  /** The log with t behind it recovers as exactly that if and only if t reads back as itself. */
  lemma ImageSurvives(img: Image, l: Log, t: Txn)
    requires CanCommit(l, t, |img|) && Fits(l.g, |img|) && AllEncodable(l.live) && Encodable(t)
    requires LogAt(img, l.g, l.tail, l.live) && TxnAt(img, l.g, Head(l), t) && Fresh(img, l.g, l.next + 1)
    requires SuperSays(img[JSUPER], After(l, t))
    ensures RecoveredTxns(img, l.g) == l.live + [t] <==> LayoutAgrees(t) || Mirrors(t)
  {
    hide PhysOf, EncodeLog, EncodeTxn, LogAt, TxnAt, WellFormed, Magic, SuperStart, SuperSequence, CanCommit, Scan;
    hide Fresh;
    hide LayoutAgrees, Mirrors;
    CanCommitParts(l, t, |img|);
    Numbers(l, |img|);
    ScanBehind(img, l, t);
  }

  /**
   Recovery returns the live transactions of a log and nothing more if and only if no valid
   transaction with the next number stands behind it.
   */
  lemma RecoversExactly(img: Image, l: Log)
    requires WellFormed(l, |img|) && Fits(l.g, |img|) && AllEncodable(l.live) && LogAt(img, l.g, l.tail, l.live)
    requires l.live != [] && SuperSays(img[JSUPER], l)
    ensures RecoveredTxns(img, l.g) == l.live <==> ParseAt(img, l.g, Head(l), l.next) == NoTxn
  {
    hide PhysOf, EncodeLog, LogAt, WellFormed, Magic, SuperStart, SuperSequence, ParseAt, Consecutive, Readable;
    Numbers(l, |img|);
    WellFormedParts(l, |img|);
    var want := l.next - |l.live|;
    assert want + |l.live| == l.next;
    ScanExact(img, l.g, l.tail, l.live, want, l.g.maxlen + 1);
  }

  // ---- disks ----

  lemma HeldTxnAt(d: Disk, g: Geometry, off: nat, t: Txn, img: Image)
    requires Fits(g, |d.base|) && Encodable(t) && LogHeld(d, g, off, EncodeTxn(t)) && CrashImage(d, img)
    ensures TxnAt(img, g, off, t)
  {
    hide PhysOf, EncodeTxn, May;
    forall i | 0 <= i < Size(t) ensures Slot(img, g, off + i) == EncodeTxn(t)[i] {
      assert Holds(d, PhysOf(g, off + i), EncodeTxn(t)[i]);
      assert May(d, PhysOf(g, off + i), img[PhysOf(g, off + i)]);
    }
  }

  /** The commit block was issued and not yet flushed: the crash decides. */
  lemma IssuedRecovers(d: Disk, l: Log, t: Txn, img: Image)
    requires CanCommit(l, t, |d.base|) && CommitIssued(d, l, t) && CrashImage(d, img) && LayoutAgrees(t)
    ensures var r := RecoveredTxns(img, l.g);
            || (r == l.live && (l.live == [] || (Fresh(img, l.g, l.next) && RecoveredHead(img, l.g) == Head(l))))
            || (r == l.live + [t] && Fresh(img, l.g, l.next + 1) && RecoveredHead(img, l.g) == Head(l) + Size(t))
  {
    hide PhysOf, EncodeLog, EncodeTxn, LogAt, TxnAt, Fresh, SuperSays, WellFormed, CanCommit, RecoveredTxns;
    hide RecoveredHead;
    hide May, LogHeld, OnlyOrOlder, CommitRecord, Body, Older;
    CanCommitParts(l, t, |d.base|);
    HeldLogAt(d, l.g, l.tail, l.live, img);
    assert May(d, JSUPER, img[JSUPER]);
    if l.live == [] {
      EmptyLog(img, l);
    } else if img[CommitPos(l, t)] == CommitRecord(t) {
      IssuedLanded(d, l, t, img);
      NonemptySays(img[JSUPER], l, t);
      ImageAfter(img, l, t);
    } else {
      IssuedLostFresh(d, l, t, img);
      ImageRecovers(img, l);
    }
  }

  lemma EmptyLog(img: Image, l: Log)
    requires Fits(l.g, |img|) && l.live == [] && SuperSays(img[JSUPER], l)
    ensures RecoveredTxns(img, l.g) == []
  {
    hide Magic, SuperStart, Scan;
  }

  lemma NonemptySays(v: Block, l: Log, t: Txn)
    requires l.live != []
    ensures SuperSays(v, l) <==> SuperSays(v, After(l, t))
  {
    hide Magic, SuperStart, SuperSequence;
  }

  lemma IssuedLanded(d: Disk, l: Log, t: Txn, img: Image)
    requires CanCommit(l, t, |d.base|) && CommitIssued(d, l, t) && CrashImage(d, img)
    requires img[CommitPos(l, t)] == CommitRecord(t)
    ensures Fits(l.g, |img|) && AllEncodable(l.live) && Encodable(t)
    ensures TxnAt(img, l.g, Head(l), t) && Fresh(img, l.g, l.next + 1)
  {
    hide PhysOf, EncodeLog, Body, SuperHeld, WellFormed, CanCommit, May, Older, CommitBlock, ChecksumOf;
    CanCommitParts(l, t, |d.base|);
    forall i | 0 <= i < Size(t) ensures Slot(img, l.g, Head(l) + i) == EncodeTxn(t)[i] {
      if i < |Body(t)| {
        assert Holds(d, PhysOf(l.g, Head(l) + i), Body(t)[i]);
        assert May(d, PhysOf(l.g, Head(l) + i), img[PhysOf(l.g, Head(l) + i)]);
      }
    }
    CommitRecordOlder(t);
    var n := l.next + 1;
    forall b | l.g.first <= b < l.g.first + l.g.maxlen ensures Older(img[b], n) {
      if b != CommitPos(l, t) {
        assert BlockOlder(d, b, l.next) && May(d, b, img[b]);
        OlderLater(img[b], l.next);
      }
    }
    OlderFresh(img, l.g, n);
  }

  lemma OlderFresh(img: Image, g: Geometry, n: nat)
    requires Fits(g, |img|) && forall b :: g.first <= b < g.first + g.maxlen ==> Older(img[b], n)
    ensures Fresh(img, g, n)
  {
    hide IsCommit, Sequence;
    forall b | g.first <= b < g.first + g.maxlen && IsCommit(img[b]) ensures Sequence(img[b]) < n {
      assert Older(img[b], n);
    }
  }

  lemma IssuedLostFresh(d: Disk, l: Log, t: Txn, img: Image)
    requires CanCommit(l, t, |d.base|) && CommitIssued(d, l, t) && CrashImage(d, img)
    requires img[CommitPos(l, t)] != CommitRecord(t)
    ensures Fits(l.g, |img|) && Fresh(img, l.g, l.next)
  {
    hide PhysOf, EncodeLog, Body, SuperHeld, WellFormed, CanCommit, May, Older, CommitRecord, LogHeld;
    CanCommitParts(l, t, |d.base|);
    forall b | l.g.first <= b < l.g.first + l.g.maxlen ensures Older(img[b], l.next) {
      assert May(d, b, img[b]);
      if b != CommitPos(l, t) {
        assert BlockOlder(d, b, l.next);
      }
    }
    OlderFresh(img, l.g, l.next);
  }

  /** The commit block is durable; only the superblock can still make a difference. */
  lemma LoggedRecovers(d: Disk, l: Log, t: Txn, img: Image)
    requires CanCommit(l, t, |d.base|) && CommitLogged(d, l, t) && CrashImage(d, img) && LayoutAgrees(t)
    requires SuperSays(img[JSUPER], l) || SuperSays(img[JSUPER], After(l, t))
    ensures SuperSays(img[JSUPER], After(l, t)) ==>
      (RecoveredTxns(img, l.g) == l.live + [t] && RecoveredHead(img, l.g) == Head(l) + Size(t))
    ensures !SuperSays(img[JSUPER], After(l, t)) ==> l.live == [] && RecoveredTxns(img, l.g) == []
    ensures Fresh(img, l.g, l.next + 1)
  {
    hide PhysOf, EncodeLog, EncodeTxn, LogAt, TxnAt, Fresh, SuperSays, WellFormed, CanCommit, RecoveredTxns, May;
    hide LogHeld, FreshHeld, RecoveredHead;
    CanCommitParts(l, t, |d.base|);
    HeldLogAt(d, l.g, l.tail, l.live, img);
    HeldTxnAt(d, l.g, Head(l), t, img);
    HeldFresh(d, l.g, l.next + 1, img);
    if SuperSays(img[JSUPER], After(l, t)) {
      ImageAfter(img, l, t);
    } else {
      if l.live != [] {
        NonemptySays(img[JSUPER], l, t);
      }
      EmptyLog(img, l);
    }
  }

  /**
   Crash atomicity, at every point of a commit and for every subset of unflushed writes:
   recovery replays the earlier transactions, or those and this whole one; never this one
   before its commit block is issued, always this one once commit has returned.
   */
  lemma CommitAtomic(d: Disk, l: Log, t: Txn, k: nat, img: Image)
    requires Mid(d, l, t, k) && LayoutAgrees(t) && CrashImage(d, img)
    ensures RecoveredTxns(img, l.g) == l.live || RecoveredTxns(img, l.g) == l.live + [t]
    ensures k <= |Body(t)| + 1 ==> RecoveredTxns(img, l.g) == l.live
    ensures k >= |CommitOps(l.g, Head(l), l.live == [], t)| ==> RecoveredTxns(img, l.g) == l.live + [t]
    ensures RecoveredTxns(img, l.g) == l.live + [t] ==>
      Fresh(img, l.g, l.next + 1) && RecoveredHead(img, l.g) == Head(l) + Size(t)
    ensures RecoveredTxns(img, l.g) == l.live != [] ==> Fresh(img, l.g, l.next) && RecoveredHead(img, l.g) == Head(l)
  {
    hide PhysOf, EncodeLog, Body, CommitRecord, Fresh, SuperSays, WellFormed, CanCommit, RecoveredTxns;
    hide RecoveredHead, May;
    hide CommitIssued, CommitLogged, Stable, SuperBlock;
    CanCommitParts(l, t, |d.base|);
    var m := |Body(t)|;
    assert May(d, JSUPER, img[JSUPER]);
    if k <= m + 1 {
      StableRecovers(d, l, img);
    } else if k == m + 2 {
      IssuedRecovers(d, l, t, img);
    } else {
      if l.live != [] {
        NonemptySays(img[JSUPER], l, t);
      }
      LoggedRecovers(d, l, t, img);
    }
  }

  /**
   A transaction whose commit has returned survives every crash if and only if commit and
   recovery agree on its layout, having no revokes or no payloads, or its payloads are all
   copies of its own revoke block.
   */
  lemma CommitSurvives(d: Disk, l: Log, t: Txn, img: Image)
    requires CanCommit(l, t, |d.base|) && Finished(d, l, t) && CrashImage(d, img)
    ensures Encodable(t)
    ensures RecoveredTxns(img, l.g) == l.live + [t] <==> LayoutAgrees(t) || Mirrors(t)
  {
    hide PhysOf, EncodeLog, EncodeTxn, LogAt, TxnAt, Fresh, SuperSays, WellFormed, CanCommit, RecoveredTxns, May;
    hide LogHeld, FreshHeld, LayoutAgrees, Mirrors;
    CanCommitParts(l, t, |d.base|);
    assert May(d, JSUPER, img[JSUPER]);
    HeldLogAt(d, l.g, l.tail, l.live, img);
    HeldTxnAt(d, l.g, Head(l), t, img);
    HeldFresh(d, l.g, l.next + 1, img);
    ImageSurvives(img, l, t);
  }

  // ---- going on after a crash ----

  function EmptySuper(g: Geometry): Block {
    SuperBlock(g.maxlen, g.first, 0, EMPTY)
  }

  /** Every device operation of a recovery that does not find the log empty. */
  function RecoverOps(img: Image, g: Geometry): seq<Op>
    requires Fits(g, |img|)
  {
    InstallOps(Replayed(RecoveredTxns(img, g))) + [Write(JSUPER, EmptySuper(g)), Flush]
  }

  /** After recovery the log is empty and stable, whatever the image it started from. */
  lemma RecoveryStable(img: Image, g: Geometry, head: nat, next: nat)
    requires Fits(g, |img|) && TargetsHome(RecoveredTxns(img, g), g, |img|)
    requires head < EMPTY && next < U64 && Fresh(img, g, next)
    ensures Stable(Run(Disk(img, []), RecoverOps(img, g)), Log(g, head, next, []))
  {
    hide RecoveredTxns, Replayed, Fresh, EmptySuper, View, May;
    var all := Replayed(RecoveredTxns(img, g));
    ReplayedHome(RecoveredTxns(img, g), g, |img|);
    var d0, installs := Disk(img, []), InstallOps(all);
    var d1 := Run(d0, installs);
    var d2 := Do(d1, Write(JSUPER, EmptySuper(g)));
    var d3 := Do(d2, Flush);
    assert d3.log == installs + [Write(JSUPER, EmptySuper(g))] + [Flush];
    assert Run(d0, RecoverOps(img, g)) == d3;
    EmptySuperReads(g);
    DoView(d1, Write(JSUPER, EmptySuper(g)), JSUPER);
    FlushHolds(d2, JSUPER);
    LastCopyIndex(all, JSUPER);
    forall b | g.first <= b < g.first + g.maxlen ensures BlockOlder(d3, b, next) {
      DoView(d1, Write(JSUPER, EmptySuper(g)), b);
      FlushHolds(d2, b);
      InstallView(d0, all, b);
      LastCopyIndex(all, b);
      FreshDiskView(img, b);
      FreshOlder(img, g, next, b);
    }
  }

  lemma {:induction false} FreshDiskView(img: Image, b: nat)
    requires b < |img|
    ensures View(Disk(img, []), b) == img[b]
  {}

  lemma FreshOlder(img: Image, g: Geometry, n: nat, b: nat)
    requires Fits(g, |img|) && Fresh(img, g, n) && g.first <= b < g.first + g.maxlen
    ensures Older(img[b], n)
  {}

  lemma EmptySuperReads(g: Geometry)
    ensures Magic(EmptySuper(g)) == JOURNAL_MAGIC && SuperStart(EmptySuper(g)) == EMPTY
  {
    hide SuperBlock, Magic, SuperStart, SuperSequence;
    SuperBlockReadsBack(g.maxlen, g.first, 0, EMPTY);
  }
}
