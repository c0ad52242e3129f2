/** A damaged payload is noticed: recovery replays exactly the transactions before it. */
module Corruption {
  import opened Bytes
  import Crc32
  import opened DiskFormat
  import opened LogFormat
  import opened Replay
  import opened CrashSafety

  /** The blocks differ, and only inside a window of at most four bytes. */
  ghost predicate Damaged(u: Block, v: Block) {
    exists p, x, y, s :: DamagedAt(u, v, p, x, y, s)
  }

  ghost predicate DamagedAt(u: Block, v: Block, p: seq<byte>, x: seq<byte>, y: seq<byte>, s: seq<byte>) {
    |x| == |y| <= 4 && x != y && u == p + x + s && v == p + y + s
  }

  /** One changed byte is damage. */
  lemma OneByteDamages(u: Block, at: nat, v: byte)
    requires at < 4096 && u[at] != v
    ensures Damaged(u, u[at := v])
  {
    var w: Block := u[at := v];
    assert DamagedAt(u, w, u[..at], [u[at]], [v], u[at + 1..]);
  }

  lemma {:induction false} ConcatSplit(blocks: seq<Block>, j: nat)
    requires j < |blocks|
    ensures Concat(blocks) == Concat(blocks[..j]) + blocks[j] + Concat(blocks[j + 1..])
  {
    if j == 0 {
      assert blocks[..0] == [];
    } else {
      ConcatSplit(blocks[1..], j - 1);
      assert blocks[1..][..j - 1] == blocks[..j][1..];
      assert blocks[1..][j..] == blocks[j + 1..];
    }
  }

  lemma ChecksumNotices(blocks: seq<Block>, j: nat, v: Block)
    requires j < |blocks| && Damaged(blocks[j], v)
    ensures FromBits(ChecksumOf(blocks)) != FromBits(ChecksumOf(blocks[j := v]))
  {
    hide Crc32.Final, Crc32.Update, FromBits, Concat;
    var p, x, y, s :| DamagedAt(blocks[j], v, p, x, y, s);
    var a, z := Concat(blocks[..j]), Concat(blocks[j + 1..]);
    ConcatSplit(blocks, j);
    ConcatSplit(blocks[j := v], j);
    assert blocks[j := v][..j] == blocks[..j] && blocks[j := v][j + 1..] == blocks[j + 1..];
    assert Concat(blocks) == (a + p) + x + (s + z);
    assert Concat(blocks[j := v]) == (a + p) + y + (s + z);
    Crc32.CorruptionDetected(Crc32.INIT, a + p, x, y, s + z);
    if FromBits(ChecksumOf(blocks)) == FromBits(ChecksumOf(blocks[j := v])) {
      ChecksumInjective(ChecksumOf(blocks), ChecksumOf(blocks[j := v]));
    }
  }

  ghost predicate SameSlot(img: Image, bad: Image, g: Geometry, off: nat, i: int)
    requires Fits(g, |img|) && |bad| == |img| && 0 <= i
  {
    Slot(bad, g, off + i) == Slot(img, g, off + i)
  }

  /** A transaction with one damaged payload no longer parses. */
  lemma DamagedParse(img: Image, bad: Image, g: Geometry, off: nat, t: Txn, want: nat, k: nat)
    requires Fits(g, |img|) && |bad| == |img| && Encodable(t) && LayoutAgrees(t) && TxnAt(img, g, off, t)
    requires k < |t.copies| && Damaged(t.copies[k].data, Slot(bad, g, off + 1 + k))
    requires forall i :: 0 <= i < Size(t) && i != 1 + k ==> SameSlot(img, bad, g, off, i)
    ensures ParseAt(bad, g, off, want) == NoTxn
  {
    hide PhysOf, ChecksumOf, Magic, Count, Sequence, IsCommit, Checksum, EntryAt, RevokeList, ListBlock, CommitBlock;
    hide EncodeTxn, Body, Slot, TxnAt, Damaged;
    var n, v := |t.copies|, Slot(bad, g, off + 1 + k);
    CommitSlot(img, g, off, t);
    WrittenParts(img, g, off, t);
    ListBlockReadsBack(DESC_MAGIC, t.sequence, Targets(t));
    CommitBlockReadsBack(t.sequence, ChecksumOf(Body(t)));
    CommitMagic(Slot(img, g, off + Size(t) - 1));
    assert SameSlot(img, bad, g, off, 0) && SameSlot(img, bad, g, off, 1 + n);
    var payloads := Slots(bad, g, off + 1, n);
    forall i | 0 <= i < n ensures payloads[i] == Payloads(t)[k := v][i] {
      assert i != k ==> SameSlot(img, bad, g, off, 1 + i);
      assert Slots(img, g, off + 1, n)[i] == Slot(img, g, off + 1 + i);
    }
    assert payloads == Payloads(t)[k := v];
    assert [DescBlock(t)] + [] + payloads == Body(t)[1 + k := v];
    assert Body(t)[1 + k] == t.copies[k].data;
    ChecksumNotices(Body(t), 1 + k, v);
  }

  /** Logical offset of transaction i of a log that starts at off. */
  function TxnOffset(off: nat, txns: seq<Txn>, i: nat): nat
    requires AllEncodable(txns) && i < |txns|
  {
    off + |EncodeLog(txns[..i])|
  }

  lemma {:induction false} LogParts(img: Image, g: Geometry, off: nat, txns: seq<Txn>, i: nat)
    requires Fits(g, |img|) && AllEncodable(txns) && LogAt(img, g, off, txns) && i < |txns|
    ensures LogAt(img, g, off, txns[..i]) && TxnAt(img, g, TxnOffset(off, txns, i), txns[i])
    ensures |EncodeLog(txns[..i])| + Size(txns[i]) <= |EncodeLog(txns)|
  {
    hide PhysOf, EncodeTxn, Slot, EncodeLog;
    var a, t, z := txns[..i], txns[i], txns[i + 1..];
    assert txns == a + ([t] + z);
    EncodeLogConcat(a, [t] + z);
    EncodeLogConcat([t], z);
    EncodeLogSnoc([], t);
    assert [] + [t] == [t];
    EncodeLogNone();
    var all := Slots(img, g, off, |EncodeLog(txns)|);
    forall j | 0 <= j < |EncodeLog(a)| ensures Slots(img, g, off, |EncodeLog(a)|)[j] == EncodeLog(a)[j] {
      assert all[j] == Slot(img, g, off + j);
    }
    var o := TxnOffset(off, txns, i);
    forall j | 0 <= j < Size(t) ensures Slots(img, g, o, Size(t))[j] == EncodeTxn(t)[j] {
      assert all[|EncodeLog(a)| + j] == Slot(img, g, off + (|EncodeLog(a)| + j));
    }
  }

  lemma EncodeLogNone()
    ensures EncodeLog([]) == []
  {}

  lemma OtherSlots(img: Image, g: Geometry, off: nat, n: nat, at: nat, v: Block, i: nat)
    requires Fits(g, |img|) && n <= g.maxlen && off + n < U64 && at < n && i < n && i != at
    ensures Slot(img[PhysOf(g, off + at) := v], g, off + i) == Slot(img, g, off + i)
  {
    if i < at {
      PhysDistinct(g, off + i, off + at);
    } else {
      PhysDistinct(g, off + at, off + i);
    }
  }

  /**
   Damage one payload of a live transaction: the recomputed checksum differs from the one in
   its commit block, and recovery replays the transactions before it and no other.
   */
  lemma DamageStops(img: Image, l: Log, i: nat, k: nat, v: Block)
    requires WellFormed(l, |img|) && Fits(l.g, |img|) && AllEncodable(l.live)
    requires LogAt(img, l.g, l.tail, l.live) && SuperSays(img[JSUPER], l)
    requires i < |l.live| && k < |l.live[i].copies| && Damaged(l.live[i].copies[k].data, v)
    ensures var b := PhysOf(l.g, TxnOffset(l.tail, l.live, i) + 1 + k);
            RecoveredTxns(img[b := v], l.g) == l.live[..i]
  {
    hide PhysOf, EncodeLog, EncodeTxn, Magic, SuperStart, SuperSequence, ParseAt, WellFormed, Damaged, LogAt, TxnAt;
    hide Slot;
    WellFormedParts(l, |img|);
    LogParts(img, l.g, l.tail, l.live, i);
    var t, before := l.live[i], l.live[..i];
    var n, size := |EncodeLog(before)|, |EncodeLog(l.live)|;
    var bad := img[PhysOf(l.g, TxnOffset(l.tail, l.live, i) + 1 + k) := v];
    forall j | 0 <= j < size && j != n + 1 + k ensures SameSlot(img, bad, l.g, l.tail, j) {
      OtherSlots(img, l.g, l.tail, size, n + 1 + k, v, j);
    }
    LogAtKept(img, bad, l.g, l.tail, before);
    DamagedSlot(img, l.g, l.tail + n + 1 + k, v);
    var o := l.tail + n;
    forall j | 0 <= j < Size(t) && j != 1 + k ensures SameSlot(img, bad, l.g, o, j) {
      assert SameSlot(img, bad, l.g, l.tail, n + j);
      assert l.tail + (n + j) == o + j;
    }
    var want := l.next - |l.live|;
    DamagedParse(img, bad, l.g, l.tail + n, t, want + i, k);
    PrefixNumbers(l.live, want, i);
    ScanExact(bad, l.g, l.tail, before, want, l.g.maxlen + 1);
  }

  lemma DamagedSlot(img: Image, g: Geometry, off: nat, v: Block)
    requires Fits(g, |img|)
    ensures Slot(img[PhysOf(g, off) := v], g, off) == v
  {
    hide PhysOf;
  }

  lemma {:induction false} LogAtKept(img: Image, bad: Image, g: Geometry, off: nat, txns: seq<Txn>)
    requires Fits(g, |img|) && |bad| == |img| && AllEncodable(txns) && LogAt(img, g, off, txns)
    requires forall j :: 0 <= j < |EncodeLog(txns)| ==> SameSlot(img, bad, g, off, j)
    ensures LogAt(bad, g, off, txns)
  {
    hide PhysOf, EncodeLog, Slot;
    var n := |EncodeLog(txns)|;
    forall j | 0 <= j < n ensures Slots(bad, g, off, n)[j] == EncodeLog(txns)[j] {
      assert SameSlot(img, bad, g, off, j);
      assert Slots(img, g, off, n)[j] == Slot(img, g, off + j);
    }
  }

  lemma PrefixNumbers(txns: seq<Txn>, want: nat, i: nat)
    requires Readable(txns) && Consecutive(txns, want) && i < |txns|
    ensures Readable(txns[..i]) && Consecutive(txns[..i], want) && LayoutAgrees(txns[i])
  {
    hide LayoutAgrees, Encodable;
  }
}
