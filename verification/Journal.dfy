/**
 The journal as the program runs it: its cursor moves through the region, its loops build
 and read blocks, and every method is tied to the script of device operations that the
 crash proofs are about.
 */
module Journal {
  import opened Bytes
  import Crc32
  import opened DiskFormat
  import opened Device
  import opened LogFormat
  import opened Replay
  import opened CrashSafety
  import opened CrashOutcome
  import opened Checkpoint

  datatype Status = Done | Invalid | NoSpace

  /** Unsigned 64-bit arithmetic. */
  function Wrap(n: int): u64 {
    n % U64
  }

  lemma PhysWrap(g: Geometry, off: nat)
    requires g.maxlen > 0
    ensures PhysOf(g, Wrap(off)) == PhysOf(g, off)
  {}

  function UnsignedFree(g: Geometry, head: u64, tail: u64): u64 {
    Wrap(g.maxlen - Wrap(head - tail))
  }

  /** While the tail is at most a region length behind the head nothing wraps. */
  lemma FreeSpaceAgrees(g: Geometry, head: u64, tail: u64)
    requires tail <= head <= tail + g.maxlen && g.maxlen < U64
    ensures UnsignedFree(g, head, tail) == FreeSpace(g.maxlen, head, tail)
  {}

  function RevokesOf(revoke: seq<u64>, sequence: u64): (rs: seq<Revoke>)
    ensures |rs| == |revoke|
  {
    seq(|revoke|, i requires 0 <= i < |revoke| => Revoke(revoke[i], sequence))
  }

  /** The transaction a call of commit writes. */
  function TxnFor(sequence: u64, data: seq<Copy>, revoke: seq<u64>): Txn {
    Txn(sequence, data, RevokesOf(revoke, sequence))
  }

  lemma TxnForEncodable(sequence: u64, data: seq<Copy>, revoke: seq<u64>)
    requires |data| <= MAX_TAGS && |revoke| <= MAX_TAGS
    ensures Encodable(TxnFor(sequence, data, revoke))
    ensures RevokedBlocks(TxnFor(sequence, data, revoke)) == revoke
    ensures Size(TxnFor(sequence, data, revoke)) == SpaceNeeded(|data|, |revoke|)
  {}

  lemma SlotInside(g: Geometry, nblocks: nat, off: nat)
    requires Fits(g, nblocks)
    ensures g.maxlen > 0 && PhysOf(g, off) < nblocks
  {
    hide PhysOf;
  }

  lemma BodySize(t: Txn)
    requires Encodable(t)
    ensures |Body(t)| + 1 == Size(t)
  {
    hide ListBlock;
  }

  // ---- scripts as prefixes ----

  /** The disk after any prefix of a commit's script is that many steps into the commit. */
  lemma {:induction false} CommitPrefix(d: Disk, l: Log, t: Txn, k: nat)
    requires CanCommit(l, t, |d.base|) && Stable(d, l) && AllEncodable(l.live) && Fits(l.g, |d.base|)
    requires k <= |CommitOps(l.g, Head(l), l.live == [], t)|
    ensures Mid(Run(d, CommitOps(l.g, Head(l), l.live == [], t)[..k]), l, t, k)
  {
    hide PhysOf, CommitOps, Stable, CanCommit, Body, WellFormed, EncodeLog, View;
    CanCommitParts(l, t, |d.base|);
    var ops := CommitOps(l.g, Head(l), l.live == [], t);
    if k == 0 {
      assert Run(d, ops[..0]) == d;
    } else {
      CommitPrefix(d, l, t, k - 1);
      var e := Run(d, ops[..k - 1]);
      CommitStep(e, l, t, k - 1);
      assert ops[..k] == ops[..k - 1] + [ops[k - 1]];
      RunSnoc(d, ops[..k - 1], ops[k - 1]);
    }
  }

  /** A commit that has returned has moved the journal from l to l with t behind it. */
  lemma CommitKeepsStable(d: Disk, l: Log, t: Txn)
    requires CanCommit(l, t, |d.base|) && Stable(d, l) && AllEncodable(l.live) && Fits(l.g, |d.base|) && LayoutAgrees(t)
    ensures Stable(Run(d, CommitOps(l.g, Head(l), l.live == [], t)), After(l, t))
  {
    hide PhysOf, CommitOps, Stable, WellFormed, EncodeLog, LayoutAgrees, CommitDurable, Finished;
    CanCommitParts(l, t, |d.base|);
    var ops := CommitOps(l.g, Head(l), l.live == [], t);
    CommitPrefix(d, l, t, |ops|);
    assert ops[..|ops|] == ops;
    if l.live != [] {
      NonemptyFinished(Run(d, ops), l, t);
    }
    FinishedStable(Run(d, ops), l, t);
  }

  // ---- the checksum ----

  method ChecksumTransaction(blocks: seq<Block>) returns (crc: Crc32.Word)
    ensures crc == ChecksumOf(blocks)
  {
    var table := new Crc32.Word[256];
    Crc32.BuildTable(table);
    crc := Crc32.INIT;
    for i := 0 to |blocks|
      invariant Crc32.IsTable(table[..])
      invariant Crc32.Update(crc, Concat(blocks[i..])) == Crc32.Update(Crc32.INIT, Concat(blocks))
    {
      Crc32.UpdateConcat(crc, blocks[i], Concat(blocks[i + 1..]));
      assert blocks[i..][1..] == blocks[i + 1..];
      crc := Crc32.TableUpdate(table, crc, blocks[i]);
    }
    EmptyUpdate(crc);
    crc := Crc32.Final(crc);
  }

  lemma EmptyUpdate(crc: Crc32.Word)
    ensures Crc32.Update(crc, Concat([])) == crc
  {}

  // ---- the scan in 64-bit offsets ----

  lemma WrapAdd(a: nat, k: nat)
    ensures Wrap(Wrap(a) + k) == Wrap(a + k)
  {}

  lemma SlotWrap(img: Image, g: Geometry, off: nat, k: nat)
    requires Fits(g, |img|)
    ensures Slot(img, g, Wrap(off) + k) == Slot(img, g, off + k)
  {
    WrapAdd(off, k);
    PhysWrap(g, Wrap(off) + k);
    PhysWrap(g, off + k);
  }

  /** Offsets and numbers that agree modulo 2^64 parse alike. */
  lemma ParseWrap(img: Image, g: Geometry, off: nat, want: nat)
    requires Fits(g, |img|)
    ensures var p, q := ParseAt(img, g, off, want), ParseAt(img, g, Wrap(off), Wrap(want));
            p.Parsed? <==> q.Parsed?
    ensures var p, q := ParseAt(img, g, off, want), ParseAt(img, g, Wrap(off), Wrap(want));
            p.Parsed? ==> p.txn == q.txn && Wrap(p.next) == Wrap(q.next)
  {
    hide PhysOf, Slot, ChecksumOf, Magic, Count, Sequence, IsCommit, Checksum, EntryAt, RevokeList;
    var o: nat, at: nat := Wrap(off), off + 1;
    var from: nat := o + 1;
    SlotWrap(img, g, off, 0);
    var n := Count(Slot(img, g, off));
    SlotWrap(img, g, off, 1 + n);
    SlotWrap(img, g, off, 1 + n + 1);
    forall i | 0 <= i < n ensures Slots(img, g, from, n)[i] == Slots(img, g, at, n)[i] {
      SlotWrap(img, g, off, 1 + i);
      assert o + (1 + i) == from + i && off + (1 + i) == at + i;
    }
    assert Slots(img, g, from, n) == Slots(img, g, at, n);
    assert o + (1 + n) == o + 1 + n && off + (1 + n) == off + 1 + n;
    WrapAdd(off, 1 + n + 1);
    WrapAdd(off, 1 + n + 1 + 1);
  }

  /** One more turn of the scan. */
  lemma {:induction false} ScanSnoc(img: Image, g: Geometry, off: nat, want: nat, n: nat)
    requires Fits(g, |img|) && |Scan(img, g, off, want, n)| == n
    ensures var p := ParseAt(img, g, ScanEnd(img, g, off, want, n), want + n);
            && Scan(img, g, off, want, n + 1) == Scan(img, g, off, want, n) + (if p.Parsed? then [p.txn] else [])
            && ScanEnd(img, g, off, want, n + 1) == (if p.Parsed? then p.next else ScanEnd(img, g, off, want, n))
    decreases n
  {
    hide PhysOf, ParseAt;
    if n > 0 {
      var p := ParseAt(img, g, off, want);
      ScanSnoc(img, g, p.next, want + 1, n - 1);
    }
  }

  /** Once a turn finds nothing, more turns find nothing. */
  lemma {:induction false} ScanStops(img: Image, g: Geometry, off: nat, want: nat, n: nat, m: nat)
    requires Fits(g, |img|) && |Scan(img, g, off, want, n)| == n && n < m
    requires ParseAt(img, g, ScanEnd(img, g, off, want, n), want + n).NoTxn?
    ensures Scan(img, g, off, want, m) == Scan(img, g, off, want, n)
    ensures ScanEnd(img, g, off, want, m) == ScanEnd(img, g, off, want, n)
    decreases n
  {
    hide PhysOf, ParseAt;
    if n > 0 {
      var p := ParseAt(img, g, off, want);
      ScanStops(img, g, p.next, want + 1, n - 1, m - 1);
    }
  }

  /** What the scan keeps of a transaction: targets, and where their payloads stand. */
  datatype Found = Found(sequence: u64, targets: seq<u64>, offsets: seq<u64>)

  ghost predicate Describes(img: Image, g: Geometry, f: Found, t: Txn)
    requires Fits(g, |img|)
  {
    && f.sequence == t.sequence
    && |f.targets| == |f.offsets| == |t.copies|
    && forall k :: 0 <= k < |t.copies| ==> t.copies[k] == Copy(f.targets[k], Slot(img, g, f.offsets[k]))
  }

  ghost predicate DescribesAll(img: Image, g: Geometry, fs: seq<Found>, txns: seq<Txn>)
    requires Fits(g, |img|)
  {
    |fs| == |txns| && forall i :: 0 <= i < |fs| ==> Describes(img, g, fs[i], txns[i])
  }

  // ---- the second pass in prefixes ----

  /** No copy goes into the journal region. */
  ghost predicate AwayFromLog(txns: seq<Txn>, g: Geometry) {
    forall i, k :: 0 <= i < |txns| && 0 <= k < |txns[i].copies| ==> OutsideLog(g, txns[i].copies[k].target)
  }

  predicate OutsideLog(g: Geometry, b: nat) {
    !(g.first <= b < g.first + g.maxlen)
  }

  /** What has been installed when copy k of transaction i is up. */
  function InstalledBefore(txns: seq<Txn>, revs: seq<Revoke>, i: nat, k: nat): seq<Copy>
    requires i < |txns| && k <= |txns[i].copies|
  {
    Installs(txns[..i], revs) + Survivors(txns[i].copies[..k], txns[i].sequence, revs)
  }

  lemma {:induction false} InstalledNone(txns: seq<Txn>, revs: seq<Revoke>, i: nat)
    requires i < |txns|
    ensures InstalledBefore(txns, revs, i, 0) == Installs(txns[..i], revs)
  {
    assert txns[i].copies[..0] == [];
  }

  lemma InstalledNext(txns: seq<Txn>, revs: seq<Revoke>, i: nat, k: nat)
    requires i < |txns| && k < |txns[i].copies|
    ensures var c := txns[i].copies[k];
            InstalledBefore(txns, revs, i, k + 1)
            == InstalledBefore(txns, revs, i, k) + (if Revoked(revs, c.target, txns[i].sequence) then [] else [c])
  {
    var t := txns[i];
    assert t.copies[..k + 1] == t.copies[..k] + [t.copies[k]];
    SurvivorsConcat(t.copies[..k], [t.copies[k]], t.sequence, revs);
    assert [t.copies[k]][1..] == [];
  }

  lemma {:induction false} InstalledTxn(txns: seq<Txn>, revs: seq<Revoke>, i: nat)
    requires i < |txns|
    ensures InstalledBefore(txns, revs, i, |txns[i].copies|) == Installs(txns[..i + 1], revs)
  {
    assert txns[..i + 1] == txns[..i] + [txns[i]];
    InstallsConcat(txns[..i], [txns[i]], revs);
    assert [txns[i]][1..] == [] && txns[i].copies[..|txns[i].copies|] == txns[i].copies;
    assert Installs([txns[i]], revs) == Survivors(txns[i].copies, txns[i].sequence, revs);
  }

  /** The copy that is up next is the next one of the whole list. */
  lemma {:induction false} InstalledPrefix(txns: seq<Txn>, revs: seq<Revoke>, i: nat, k: nat)
    requires i < |txns| && k < |txns[i].copies| && !Revoked(revs, txns[i].copies[k].target, txns[i].sequence)
    ensures InstalledBefore(txns, revs, i, k) + [txns[i].copies[k]] <= Installs(txns, revs)
  {
    var t := txns[i];
    InstalledNext(txns, revs, i, k);
    assert t.copies == t.copies[..k + 1] + t.copies[k + 1..];
    SurvivorsConcat(t.copies[..k + 1], t.copies[k + 1..], t.sequence, revs);
    assert txns == txns[..i] + txns[i..];
    InstallsConcat(txns[..i], txns[i..], revs);
    assert txns[i..][0] == t;
  }

  function LastValid(txns: seq<Txn>, sequence: u64): u64 {
    if txns != [] then txns[|txns| - 1].sequence else if sequence == 0 then 0 else sequence - 1
  }

  lemma {:induction false} NoScan(img: Image, g: Geometry, off: nat, want: nat)
    requires Fits(g, |img|)
    ensures Scan(img, g, off, want, 0) == [] && ScanEnd(img, g, off, want, 0) == off
  {}

  lemma ParsedSequence(img: Image, g: Geometry, off: nat, want: nat)
    requires Fits(g, |img|) && ParseAt(img, g, off, want).Parsed?
    ensures ParseAt(img, g, off, want).txn.sequence == Wrap(want)
  {
    hide PhysOf, ChecksumOf, Magic, Count, Sequence, IsCommit, Checksum, EntryAt, RevokeList, Slot;
  }

  lemma DescribesSequence(img: Image, g: Geometry, f: Found, t: Txn)
    requires Fits(g, |img|) && Describes(img, g, f, t)
    ensures f.sequence == t.sequence
  {
    hide Slot;
  }

  lemma {:induction false} AllRevokesSnoc(txns: seq<Txn>, t: Txn)
    ensures AllRevokes(txns + [t]) == AllRevokes(txns) + t.revokes
  {
    if txns == [] {
      assert [] + [t] == [t] && [t][1..] == [];
    } else {
      assert (txns + [t])[1..] == txns[1..] + [t];
      AllRevokesSnoc(txns[1..], t);
    }
  }

  ghost predicate TargetsOnDisk(copies: seq<Copy>, nblocks: nat) {
    forall k :: 0 <= k < |copies| ==> copies[k].target < nblocks
  }

  lemma NothingOnDisk(nblocks: nat)
    ensures TargetsOnDisk(Replayed([]), nblocks)
  {
    assert Replayed([]) == [];
  }

  /** The installs stopped at copy m, whose target is outside the device. */
  ghost predicate StoppedAt(before: Disk, after: Disk, copies: seq<Copy>, m: nat) {
    && m < |copies| && copies[m].target >= |before.base|
    && after == Run(before, InstallOps(copies[..m]))
  }

  ghost predicate SameRegion(a: Image, b: Image, g: Geometry) {
    |a| == |b| && forall i :: 0 <= i < |a| && !OutsideLog(g, i) ==> a[i] == b[i]
  }

  lemma SameSlot(a: Image, b: Image, g: Geometry, off: nat)
    requires Fits(g, |a|) && SameRegion(a, b, g)
    ensures Fits(g, |b|) && Slot(a, g, off) == Slot(b, g, off)
  {
    hide PhysOf;
    assert !OutsideLog(g, PhysOf(g, off));
  }

  /** A write outside the log leaves the log's content alone. */
  lemma {:induction false} WriteRegion(d: Disk, a: Image, e: Disk, b: Image, target: nat, data: Block)
    requires |a| == |d.base| == |b| == |e.base| && e == Do(d, Write(target, data))
    requires forall i :: 0 <= i < |a| ==> a[i] == View(d, i)
    requires forall i :: 0 <= i < |b| ==> b[i] == View(e, i)
    ensures forall i :: 0 <= i < |a| && i != target ==> a[i] == b[i]
  {
    hide View;
    forall i | 0 <= i < |a| && i != target ensures a[i] == b[i] {
      DoView(d, Write(target, data), i);
    }
  }

  lemma NoInstalls(d: Disk)
    ensures Run(d, InstallOps([])) == d
  {
    assert d.log + [] == d.log;
  }

  lemma InstallSnoc(d: Disk, copies: seq<Copy>, c: Copy)
    ensures Run(d, InstallOps(copies + [c])) == Do(Run(d, InstallOps(copies)), Write(c.target, c.data))
  {
    assert InstallOps(copies + [c]) == InstallOps(copies) + [Write(c.target, c.data)];
    RunSnoc(d, InstallOps(copies), Write(c.target, c.data));
  }

  lemma PrefixStops(before: Disk, after: Disk, done: seq<Copy>, c: Copy, all: seq<Copy>)
    requires done + [c] <= all && after == Run(before, InstallOps(done)) && c.target >= |before.base|
    ensures StoppedAt(before, after, all, |done|) && !TargetsOnDisk(all, |before.base|)
  {
    hide InstallOps;
    assert all[|done|] == (done + [c])[|done|] && all[..|done|] == done;
  }

  lemma LastNext(img: Image, g: Geometry, txns: seq<Txn>)
    requires Fits(g, |img|) && SuperStart(img[JSUPER]) != EMPTY && txns == RecoveredTxns(img, g)
    ensures Wrap(LastValid(txns, SuperSequence(img[JSUPER])) as int + 1) == Wrap(RecoveredNext(img, g))
  {
    hide RecoveredTxns, SuperStart, SuperSequence;
  }

  lemma RecoveryScript(before: Disk, img: Image, g: Geometry, after: Disk)
    requires Fits(g, |img|)
    requires after == Run(Run(before, InstallOps(Replayed(RecoveredTxns(img, g)))),
                          [Write(JSUPER, SuperBlock(g.maxlen, g.first, 0, EMPTY)), Flush])
    ensures after == Run(before, RecoverOps(img, g))
  {
    hide PhysOf, InstallOps, RecoveredTxns, Replayed, SuperBlock;
    assert after.log == before.log + RecoverOps(img, g);
  }

  class Journal {
    const dev: BlockDevice
    const g: Geometry
    var head: u64
    var tail: u64
    var nextSequence: u64

    ghost predicate Valid()
      reads this, dev
    {
      dev.Valid() && Fits(g, |dev.disk.base|)
    }

    constructor (dev: BlockDevice, g: Geometry, start: u64, sequence: u64)
      requires dev.Valid() && Fits(g, |dev.disk.base|)
      ensures Valid() && this.dev == dev && this.g == g
      ensures head == start && tail == start && nextSequence == sequence
    {
      this.dev := dev;
      this.g := g;
      head, tail, nextSequence := start, start, sequence;
    }

    /** Makes the log empty. */
    static method Format(dev: BlockDevice, g: Geometry)
      requires dev.Valid() && Fits(g, |dev.disk.base|)
      modifies dev
      ensures dev.Valid() && dev.disk == Run(old(dev.disk), [Write(JSUPER, EmptySuper(g)), Flush])
    {
      var ok := dev.WriteFua(JSUPER, EmptySuper(g));
    }

    /** Head and tail are provisional until recovery has run. */
    static method Open(dev: BlockDevice, g: Geometry) returns (status: Status, j: Journal?)
      requires dev.Valid() && Fits(g, |dev.disk.base|)
      ensures status == Done <==> Magic(dev.content[JSUPER]) == JOURNAL_MAGIC
      ensures status == Done <==> j != null
      ensures j != null ==> fresh(j) && j.Valid() && j.dev == dev && j.g == g && j.tail == j.head
      ensures j != null && SuperStart(dev.content[JSUPER]) == EMPTY ==> j.head == 0 && j.nextSequence == 1
      ensures j != null && SuperStart(dev.content[JSUPER]) != EMPTY ==>
        (j.head == SuperStart(dev.content[JSUPER]) && j.nextSequence == SuperSequence(dev.content[JSUPER]))
    {
      var ok, block := dev.Read(JSUPER);
      if Magic(block) != JOURNAL_MAGIC {
        return Invalid, null;
      }
      if SuperStart(block) == EMPTY {
        j := new Journal(dev, g, 0, 1);
      } else {
        j := new Journal(dev, g, SuperStart(block), SuperSequence(block));
      }
      status := Done;
    }

    method WriteSuper(start: u64, sequence: u64)
      requires Valid()
      modifies dev
      ensures Valid()
      ensures dev.disk == Run(old(dev.disk), [Write(JSUPER, SuperBlock(g.maxlen, g.first, sequence, start)), Flush])
    {
      var ok := dev.WriteFua(JSUPER, SuperBlock(g.maxlen, g.first, sequence, start));
    }

    /** Writes the next block of a transaction that starts at offset start. */
    method WriteNext(cursor: u64, block: Block, ghost start: nat, ghost written: seq<Block>, ghost before: Disk)
      returns (next: u64)
      requires Valid() && cursor == Wrap(start + |written|)
      requires dev.disk == Run(before, BodyOps(g, start, written))
      modifies dev
      ensures Valid() && next == Wrap(start + |written| + 1)
      ensures dev.disk == Run(before, BodyOps(g, start, written + [block]))
    {
      hide PhysOf, BodyOps;
      PhysWrap(g, start + |written|);
      BodyOpsSnoc(g, start, written, block);
      RunSnoc(before, BodyOps(g, start, written), Write(PhysOf(g, start + |written|), block));
      var ok := dev.WriteBlock(PhysOf(g, cursor), block);
      next := Wrap(cursor + 1);
    }

    /**
     Appends one transaction: its blocks, a flush, the commit block, a flush, and for the
     first one in an empty log the journal superblock. Fails only for size or space, and
     then touches nothing.
     */
    method Commit(data: seq<Copy>, revoke: seq<u64>)
      returns (status: Status, sequence: u64, descOffset: u64)
      requires Valid()
      modifies this, dev
      ensures Valid() && tail == old(tail)
      ensures status == Invalid <==> |data| > MAX_TAGS || |revoke| > MAX_TAGS
      ensures status == NoSpace <==>
              |data| <= MAX_TAGS && |revoke| <= MAX_TAGS
              && SpaceNeeded(|data|, |revoke|) > old(UnsignedFree(g, head, tail))
      ensures status != Done ==> dev.disk == old(dev.disk) && head == old(head) && nextSequence == old(nextSequence)
      ensures status == Done ==>
        (var t := TxnFor(old(nextSequence), data, revoke);
         && Encodable(t)
         && dev.disk == Run(old(dev.disk), CommitOps(g, old(head), old(tail == head), t))
         && head == Wrap(old(head) + Size(t)) && nextSequence == Wrap(old(nextSequence) + 1)
         && sequence == old(nextSequence) && descOffset == old(head))
    {
      hide PhysOf, BodyOps, Body, CommitOps, View, Fits;
      sequence, descOffset := 0, 0;
      var needed := SpaceNeeded(|data|, |revoke|);
      if needed == 0 {
        return Invalid, 0, 0;
      }
      if needed > UnsignedFree(g, head, tail) {
        return NoSpace, 0, 0;
      }
      status, sequence, descOffset := Done, nextSequence, head;
      TxnForEncodable(sequence, data, revoke);
      var cursor, body := WriteBody(sequence, data, revoke);
      BodySize(TxnFor(sequence, data, revoke));
      Seal(cursor, body, TxnFor(sequence, data, revoke), old(dev.disk));
    }

    /** The flush, the commit block and its flush; the superblock when the log was empty. */
    method Seal(cursor: u64, body: seq<Block>, ghost t: Txn, ghost before: Disk)
      requires Valid() && Encodable(t) && t.sequence == nextSequence && body == Body(t) && cursor == Wrap(head + |body|)
      requires dev.disk == Run(before, BodyOps(g, head, body))
      modifies this, dev
      ensures Valid() && tail == old(tail)
      ensures dev.disk == Run(before, CommitOps(g, old(head), old(tail == head), t))
      ensures head == Wrap(old(head) + |body| + 1) && nextSequence == Wrap(old(nextSequence) + 1)
    {
      hide PhysOf, BodyOps, Body, CommitBlock, SuperBlock, ChecksumOf, View, CommitOps, Fits, InRange;
      var sequence, descOffset, wasEmpty := nextSequence, head, tail == head;
      var checksum := ChecksumTransaction(body);
      SlotInside(g, |dev.disk.base|, cursor);
      PhysWrap(g, head + |body|);
      WriteCommit(cursor, CommitBlock(nextSequence, checksum));
      head := Wrap(cursor + 1);
      nextSequence := Wrap(nextSequence as int + 1);
      if wasEmpty {
        WriteSuper(descOffset, sequence);
      }
      ScriptOf(before, g, descOffset, wasEmpty, t, dev.disk);
    }

    /** The commit block, between the flush before it and the flush that makes it durable. */
    method WriteCommit(cursor: u64, block: Block)
      requires Valid()
      modifies dev
      ensures Valid() && dev.disk == Run(old(dev.disk), [Flush, Write(PhysOf(g, cursor), block), Flush])
    {
      hide PhysOf, View, Fits;
      SlotInside(g, |dev.disk.base|, cursor);
      dev.Fsync();
      var ok := dev.WriteBlock(PhysOf(g, cursor), block);
      dev.Fsync();
    }

    /** Descriptor, revoke block if there is one, payloads: everything before the flush. */
    method WriteBody(sequence: u64, data: seq<Copy>, revoke: seq<u64>) returns (cursor: u64, body: seq<Block>)
      requires Valid() && |data| <= MAX_TAGS && |revoke| <= MAX_TAGS
      modifies dev
      ensures Valid() && Encodable(TxnFor(sequence, data, revoke)) && body == Body(TxnFor(sequence, data, revoke))
      ensures dev.disk == Run(old(dev.disk), BodyOps(g, head, body)) && cursor == Wrap(head + |body|)
    {
      hide PhysOf, BodyOps, ListBlock, View;
      ghost var t, before := TxnFor(sequence, data, revoke), dev.disk;
      TxnForEncodable(sequence, data, revoke);
      var targets: seq<u64> := [];
      for i := 0 to |data|
        invariant targets == Targets(t)[..i]
      {
        targets := targets + [data[i].target];
      }
      assert targets == Targets(t);
      NoBodyOps(before, g, head);
      body := [ListBlock(DESC_MAGIC, sequence, targets)];
      cursor := WriteNext(head, body[0], head, [], before);
      assert [] + [body[0]] == body;
      if |revoke| > 0 {
        var rv := ListBlock(REVOKE_MAGIC, sequence, revoke);
        cursor := WriteNext(cursor, rv, head, body, before);
        body := body + [rv];
      }
      ghost var front := body;
      assert front == [DescBlock(t)] + RevokeBlocks(t);
      for i := 0 to |data|
        invariant Valid() && cursor == Wrap(head + |body|)
        invariant body == front + Payloads(t)[..i] && dev.disk == Run(before, BodyOps(g, head, body))
      {
        cursor := WriteNext(cursor, data[i].data, head, body, before);
        body := body + [data[i].data];
      }
    }

    /** Moves the tail; at the head the log is empty. */
    method AdvanceTail(newTail: u64, newSequence: u64)
      requires Valid()
      modifies this, dev
      ensures Valid() && head == old(head) && nextSequence == old(nextSequence) && tail == newTail
      ensures dev.disk == Run(old(dev.disk), [Write(JSUPER, TailSuper(g, newTail, newSequence, head)), Flush])
    {
      WriteSuper(if newTail == head then EMPTY else newTail, newSequence);
      tail := newTail;
    }

    // ---- recovery ----

    method ReadLogical(off: u64) returns (block: Block)
      requires Valid()
      ensures block == Slot(dev.content, g, off)
    {
      var ok;
      ok, block := dev.Read(PhysOf(g, off));
    }

    /** Payloads of a candidate transaction, with their targets and offsets. */
    method ReadPayloads(desc: Block, cursor: nat, n: nat)
      returns (targets: seq<u64>, offsets: seq<u64>, payloads: seq<Block>)
      requires Valid() && n <= MAX_TAGS
      ensures targets == Entries(desc, n) && |offsets| == |payloads| == n
      ensures payloads == Slots(dev.content, g, cursor, n)
      ensures forall k :: 0 <= k < n ==> Slot(dev.content, g, offsets[k]) == payloads[k]
    {
      hide PhysOf, EntryAt, Slot, Fits, View;
      targets, offsets, payloads := [], [], [];
      for i := 0 to n
        invariant |targets| == |offsets| == |payloads| == i
        invariant forall k :: 0 <= k < i ==> targets[k] == EntryAt(desc, k)
        invariant forall k :: 0 <= k < i ==> payloads[k] == Slot(dev.content, g, cursor + k)
        invariant forall k :: 0 <= k < i ==> Slot(dev.content, g, offsets[k]) == payloads[k]
      {
        SlotWrap(dev.content, g, cursor + i, 0);
        var block := ReadLogical(Wrap(cursor + i));
        targets := targets + [EntryAt(desc, i)];
        offsets := offsets + [Wrap(cursor + i)];
        payloads := payloads + [block];
      }
    }

    method ReadRevokes(block: Block) returns (revs: seq<Revoke>)
      ensures revs == RevokeList(block)
    {
      hide Count, EntryAt, Sequence;
      revs := [];
      var n := if Count(block) < MAX_TAGS then Count(block) else MAX_TAGS;
      for i := 0 to n
        invariant revs == RevokeList(block)[..i]
      {
        revs := revs + [Revoke(EntryAt(block, i), Sequence(block))];
      }
    }

    /** One turn of the scan loop. */
    method TryParse(scan: u64, want: u64) returns (ok: bool, found: Found, revs: seq<Revoke>, next: u64)
      requires Valid()
      ensures ok <==> ParseAt(dev.content, g, scan, want).Parsed?
      ensures ok ==> (var p := ParseAt(dev.content, g, scan, want);
                      Describes(dev.content, g, found, p.txn) && revs == p.txn.revokes && next == Wrap(p.next))
    {
      hide PhysOf, ChecksumOf, Magic, Count, Sequence, IsCommit, Checksum, EntryAt, RevokeList, Slot, View;
      found, revs, next := Found(0, [], []), [], 0;
      var desc := ReadLogical(scan);
      if Magic(desc) != DESC_MAGIC || Sequence(desc) != want || Count(desc) > MAX_TAGS {
        return false, found, revs, next;
      }
      var n := Count(desc);
      var cursor: nat := scan + 1;
      SlotWrap(dev.content, g, cursor + n, 0);
      var peek := ReadLogical(Wrap(cursor + n));
      var revoke := if Magic(peek) == REVOKE_MAGIC then [peek] else [];
      SlotWrap(dev.content, g, cursor + n + |revoke|, 0);
      var commit := ReadLogical(Wrap(cursor + n + |revoke|));
      if !IsCommit(commit) || Sequence(commit) != Sequence(desc) {
        return false, found, revs, next;
      }
      var targets, offsets, payloads := ReadPayloads(desc, cursor, n);
      var crc := ChecksumTransaction([desc] + revoke + payloads);
      if FromBits(crc) != Checksum(commit) {
        return false, found, revs, next;
      }
      if revoke != [] {
        revs := ReadRevokes(peek);
      }
      ok, found, next := true, Found(Sequence(desc), targets, offsets), Wrap(cursor + n + |revoke| + 1);
    }

    /**
     The first pass: transactions from start on until one is not a valid next one. It stops,
     on any content, because no region holds more valid ones than it has blocks.
     */
    method ScanLog(start: u64, sequence: u64)
      returns (found: seq<Found>, revs: seq<Revoke>, end: u64, last: u64, ghost txns: seq<Txn>)
      requires Valid()
      ensures txns == Scan(dev.content, g, start, sequence, g.maxlen + 1)
      ensures DescribesAll(dev.content, g, found, txns) && revs == AllRevokes(txns)
      ensures end == Wrap(ScanEnd(dev.content, g, start, sequence, g.maxlen + 1))
      ensures last == LastValid(txns, sequence)
    {
      hide PhysOf, ParseAt, Slot, View, Describes, Scan, ScanEnd;
      ghost var img := dev.content;
      found, revs, txns := [], [], [];
      end, last := start, if sequence == 0 then 0 else sequence - 1;
      var want := sequence;
      ghost var at: nat := start;
      NoScan(img, g, start, sequence);
      while true
        invariant txns == Scan(img, g, start, sequence, |txns|) && at == ScanEnd(img, g, start, sequence, |txns|)
        invariant end == Wrap(at) && want == Wrap(sequence + |txns|)
        invariant DescribesAll(img, g, found, txns) && revs == AllRevokes(txns)
        invariant last == LastValid(txns, sequence)
        decreases g.maxlen + 1 - |txns|
      {
        ScanBounded(img, g, start, sequence, |txns|);
        ParseWrap(img, g, at, sequence + |txns|);
        var ok, f, rs, next := TryParse(end, want);
        if !ok {
          ScanStops(img, g, start, sequence, |txns|, g.maxlen + 1);
          break;
        }
        ScanSnoc(img, g, start, sequence, |txns|);
        ghost var p := ParseAt(img, g, at, sequence + |txns|);
        ParsedSequence(img, g, at, sequence + |txns|);
        AllRevokesSnoc(txns, p.txn);
        WrapAdd(sequence + |txns|, 1);
        DescribesSequence(img, g, f, p.txn);
        found, revs, txns, at := found + [f], revs + rs, txns + [p.txn], p.next;
        last := f.sequence;
        want := Wrap(f.sequence as int + 1);
        end := next;
      }
    }

    /** The copies of one transaction. */
    method InstallTxn(f: Found, revs: seq<Revoke>, ghost img: Image, ghost txns: seq<Txn>, ghost i: nat,
                      ghost before: Disk)
      returns (ok: bool)
      requires Valid() && i < |txns| && |dev.disk.base| == |before.base| == |img|
      requires Describes(img, g, f, txns[i]) && AwayFromLog(txns, g) && SameRegion(img, dev.content, g)
      requires dev.disk == Run(before, InstallOps(Installs(txns[..i], revs)))
      requires TargetsOnDisk(Installs(txns[..i], revs), |before.base|)
      modifies dev
      ensures Valid() && |dev.disk.base| == |before.base| && SameRegion(img, dev.content, g)
      ensures ok ==> dev.disk == Run(before, InstallOps(Installs(txns[..i + 1], revs)))
      ensures ok ==> TargetsOnDisk(Installs(txns[..i + 1], revs), |before.base|)
      ensures !ok ==> !TargetsOnDisk(Installs(txns, revs), |before.base|)
      ensures !ok ==> exists m: nat :: StoppedAt(before, dev.disk, Installs(txns, revs), m)
    {
      hide PhysOf, View, Slot, InstallOps, Fits, InstalledBefore, OutsideLog;
      InstalledNone(txns, revs, i);
      for k := 0 to |f.targets|
        invariant Valid() && SameRegion(img, dev.content, g) && |dev.disk.base| == |before.base|
        invariant dev.disk == Run(before, InstallOps(InstalledBefore(txns, revs, i, k)))
        invariant TargetsOnDisk(InstalledBefore(txns, revs, i, k), |before.base|)
      {
        var revoked := IsRevoked(revs, f.targets[k], f.sequence);
        InstalledNext(txns, revs, i, k);
        if !revoked {
          SameSlot(img, dev.content, g, f.offsets[k]);
          var data := ReadLogical(f.offsets[k]);
          InstalledPrefix(txns, revs, i, k);
          assert OutsideLog(g, txns[i].copies[k].target);
          var written := InstallBlock(f.targets[k], data, img, InstalledBefore(txns, revs, i, k), before);
          if !written {
            PrefixStops(before, dev.disk, InstalledBefore(txns, revs, i, k), txns[i].copies[k], Installs(txns, revs));
            return false;
          }
        }
      }
      InstalledTxn(txns, revs, i);
      ok := true;
    }

    /** One install: a write to a block outside the log, refused outside the device. */
    method InstallBlock(target: u64, data: Block, ghost img: Image, ghost done: seq<Copy>, ghost before: Disk)
      returns (ok: bool)
      requires Valid() && |dev.disk.base| == |before.base| == |img| && OutsideLog(g, target)
      requires SameRegion(img, dev.content, g) && dev.disk == Run(before, InstallOps(done))
      requires TargetsOnDisk(done, |before.base|)
      modifies dev
      ensures Valid() && |dev.disk.base| == |before.base| && SameRegion(img, dev.content, g)
      ensures ok <==> target < |before.base|
      ensures ok ==> dev.disk == Run(before, InstallOps(done + [Copy(target, data)]))
      ensures ok ==> TargetsOnDisk(done + [Copy(target, data)], |before.base|)
      ensures !ok ==> dev.disk == old(dev.disk)
    {
      hide InstallOps, Fits, PhysOf;
      InstallSnoc(before, done, Copy(target, data));
      ok := dev.WriteBlock(target, data);
      if ok {
        WriteRegion(old(dev.disk), old(dev.content), dev.disk, dev.content, target, data);
      }
    }

    /**
     The second pass: every copy no revoke cancels goes home, oldest first, read again from
     the log. Stops at the first target outside the device.
     */
    method InstallAll(found: seq<Found>, revs: seq<Revoke>, ghost txns: seq<Txn>) returns (ok: bool)
      requires Valid() && DescribesAll(dev.content, g, found, txns) && AwayFromLog(txns, g)
      modifies dev
      ensures Valid()
      ensures ok <==> TargetsOnDisk(Installs(txns, revs), |old(dev.disk).base|)
      ensures ok ==> dev.disk == Run(old(dev.disk), InstallOps(Installs(txns, revs)))
      ensures !ok ==> exists m: nat :: StoppedAt(old(dev.disk), dev.disk, Installs(txns, revs), m)
    {
      hide PhysOf, View, Slot, InstallOps, Fits, Describes;
      ghost var img, before := dev.content, dev.disk;
      assert txns[..0] == [];
      NoInstalls(before);
      for i := 0 to |found|
        invariant Valid() && SameRegion(img, dev.content, g)
        invariant |dev.disk.base| == |before.base| && dev.disk == Run(before, InstallOps(Installs(txns[..i], revs)))
        invariant TargetsOnDisk(Installs(txns[..i], revs), |before.base|)
      {
        assert Describes(img, g, found[i], txns[i]);
        ok := InstallTxn(found[i], revs, img, txns, i, before);
        if !ok {
          return;
        }
      }
      assert txns[..|found|] == txns;
      ok := true;
    }

    /** Is there a revoke of block b with a larger number? */
    static method IsRevoked(revs: seq<Revoke>, b: u64, sequence: u64) returns (revoked: bool)
      ensures revoked <==> Revoked(revs, b, sequence)
    {
      for r := 0 to |revs|
        invariant forall q :: 0 <= q < r ==> !(revs[q].target == b && revs[q].sequence > sequence)
      {
        if revs[r].target == b && revs[r].sequence > sequence {
          return true;
        }
      }
      revoked := false;
    }

    /**
     Recovery: scan, install, and one superblock write that says the log is empty. Head and
     tail stand behind the last valid transaction and its number is the last used.
     */
    method Recover() returns (status: Status)
      requires Valid() && AwayFromLog(RecoveredTxns(dev.content, g), g)
      modifies this, dev
      ensures Valid()
      ensures status == Done <==>
              old(Magic(dev.content[JSUPER]) == JOURNAL_MAGIC
                  && TargetsOnDisk(Replayed(RecoveredTxns(dev.content, g)), |dev.disk.base|))
      ensures status == Invalid || status == Done
      ensures status == Done && old(SuperStart(dev.content[JSUPER])) == EMPTY ==> dev.disk == old(dev.disk)
      ensures status == Done && old(SuperStart(dev.content[JSUPER])) != EMPTY ==>
              (dev.disk == Run(old(dev.disk), RecoverOps(old(dev.content), g)))
      ensures status == Done ==>
              (head == tail == Wrap(RecoveredHead(old(dev.content), g))
               && nextSequence == Wrap(RecoveredNext(old(dev.content), g)))
      ensures status == Invalid ==> head == old(head) && tail == old(tail) && nextSequence == old(nextSequence)
      ensures status == Invalid && old(Magic(dev.content[JSUPER])) != JOURNAL_MAGIC ==> dev.disk == old(dev.disk)
      ensures status == Invalid && old(Magic(dev.content[JSUPER])) == JOURNAL_MAGIC ==>
              exists m: nat :: StoppedAt(old(dev.disk), dev.disk, Replayed(RecoveredTxns(old(dev.content), g)), m)
    {
      hide PhysOf, View, Slot, InstallOps, Magic, SuperStart, SuperSequence, Scan, ScanEnd, Installs, EmptySuper;
      ghost var img, before := dev.content, dev.disk;
      var ok, block := dev.Read(JSUPER);
      NothingOnDisk(|before.base|);
      if Magic(block) != JOURNAL_MAGIC {
        return Invalid;
      }
      if SuperStart(block) == EMPTY {
        head, tail, nextSequence := 0, 0, 1;
        return Done;
      }
      var found, revs, end, last, txns := ScanLog(SuperStart(block), SuperSequence(block));
      var installed := InstallAll(found, revs, txns);
      if !installed {
        return Invalid;
      }
      LastNext(img, g, txns);
      head, tail, nextSequence := end, end, Wrap(last as int + 1);
      WriteSuper(EMPTY, 0);
      RecoveryScript(before, img, g, dev.disk);
      status := Done;
    }
  }

  /** The operations of a commit, put together in the order they were issued. */
  lemma ScriptOf(before: Disk, g: Geometry, head: u64, wasEmpty: bool, t: Txn, after: Disk)
    requires g.maxlen > 0 && Encodable(t)
    requires var d := Run(before, BodyOps(g, head, Body(t)));
             var e := Run(d, [Flush, Write(PhysOf(g, head + |Body(t)|), CommitRecord(t)), Flush]);
             var s := [Write(JSUPER, SuperBlock(g.maxlen, g.first, t.sequence, head)), Flush];
             after == if wasEmpty then Run(e, s) else e
    ensures after == Run(before, CommitOps(g, head, wasEmpty, t))
  {
    hide PhysOf, BodyOps, SuperBlock, CommitRecord, Body;
    assert after.log == before.log + CommitOps(g, head, wasEmpty, t);
  }
}
