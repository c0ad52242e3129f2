/**
 The circular log: where logical offsets lie, how a transaction is laid out by commit, and
 how recovery's first pass finds the transactions of a disk image again.
 */
module LogFormat {
  import opened Bytes
  import Crc32
  import opened DiskFormat

  /** The journal region [first, first + maxlen) of the device. */
  datatype Geometry = Geometry(first: nat, maxlen: nat)

  type Image = seq<Block>

  /** The region lies after the journal superblock and inside a device of nblocks blocks. */
  predicate Fits(g: Geometry, nblocks: nat) {
    JSUPER < g.first && 0 < g.maxlen && g.first + g.maxlen <= nblocks <= U64
  }

  /** The remainder n % m, by subtraction: division by a variable is kept out of the proofs. */
  function Rem(n: nat, m: nat): (r: nat)
    requires m > 0
    ensures r < m
  {
    if n < m then n else Rem(n - m, m)
  }

  lemma {:induction false} RemIsRemainder(n: nat, m: nat)
    requires m > 0
    ensures Rem(n, m) == n % m
  {
    if n >= m {
      RemIsRemainder(n - m, m);
      RemainderStep(n, m);
    }
  }

  lemma RemainderStep(n: nat, m: nat)
    requires 0 < m <= n
    ensures n % m == (n - m) % m
  {
    DivisionDigit(m, (n - m) % m, (n - m) / m + 1);
    MulNonNegative(m, (n - m) / m);
    assert n == (n - m) % m + m * ((n - m) / m + 1);
  }

  function PhysOf(g: Geometry, off: nat): (b: nat)
    requires g.maxlen > 0
    ensures g.first <= b < g.first + g.maxlen
  {
    g.first + Rem(off % U64, g.maxlen)
  }

  /** The blocks outside the journal: every home location is one of these. */
  predicate IsHome(g: Geometry, nblocks: nat, b: nat) {
    b < nblocks && b != JSUPER && !(g.first <= b < g.first + g.maxlen)
  }

  function Slot(img: Image, g: Geometry, off: nat): Block
    requires Fits(g, |img|)
  {
    img[PhysOf(g, off)]
  }

  function Slots(img: Image, g: Geometry, off: nat, n: nat): (s: seq<Block>)
    requires Fits(g, |img|)
    ensures |s| == n && forall i :: 0 <= i < n ==> s[i] == Slot(img, g, off + i)
  {
    seq<Block>(n, i requires 0 <= i < n => Slot(img, g, off + i))
  }

  lemma ModGap(a: nat, b: nat, m: nat)
    requires m > 0 && a < b < a + m
    ensures a % m != b % m
  {
    if a % m == b % m {
      var q := b / m - a / m;
      assert b - a == m * q;
      MulOrder(m, 1, if q > 0 then q else 0);
      if q <= 0 {
        MulOrder(m, 0, -q);
      }
    }
  }

  lemma {:induction false} RemGap(a: nat, b: nat, m: nat)
    requires m > 0 && a < b < a + m
    ensures Rem(a, m) != Rem(b, m)
  {
    if a >= m {
      RemGap(a - m, b - m, m);
    }
  }

  /** Offsets less than a region length apart lie in different blocks. */
  lemma PhysDistinct(g: Geometry, a: nat, b: nat)
    requires g.maxlen > 0 && a < b < a + g.maxlen && b < U64
    ensures PhysOf(g, a) != PhysOf(g, b)
  {
    RemGap(a, b, g.maxlen);
  }

  /** The region is a ring: offsets run through its blocks in order and start over behind the last. */
  lemma PhysRing(g: Geometry, off: nat)
    requires g.maxlen > 0
    ensures PhysOf(g, 0) == g.first
    ensures off < U64 ==> PhysOf(g, off) == g.first + off % g.maxlen
    ensures off + 1 < U64 ==>
      PhysOf(g, off + 1) == if PhysOf(g, off) + 1 == g.first + g.maxlen then g.first else PhysOf(g, off) + 1
  {
    hide Rem;
    SmallOffset(off);
    SmallOffset(off + 1);
    RemIsRemainder(off, g.maxlen);
    RemNext(off, g.maxlen);
    assert Rem(0, g.maxlen) == 0 by {
      RemIsRemainder(0, g.maxlen);
    }
  }

  lemma SmallOffset(off: nat)
    ensures off < U64 ==> off % U64 == off
  {}

  lemma {:induction false} RemNext(n: nat, m: nat)
    requires m > 0
    ensures Rem(n + 1, m) == if Rem(n, m) + 1 == m then 0 else Rem(n, m) + 1
  {
    if n >= m {
      RemNext(n - m, m);
    }
  }

  /** Home are the blocks no offset of the log leads to, the journal superblock aside. */
  lemma HomeOrLog(g: Geometry, nblocks: nat, b: nat)
    requires Fits(g, nblocks)
    ensures IsHome(g, nblocks, b) <==> b < nblocks && b != JSUPER && forall off: nat :: PhysOf(g, off) != b
  {
    hide PhysOf;
    if g.first <= b < g.first + g.maxlen {
      PhysRing(g, b - g.first);
      SmallRem(b - g.first, g.maxlen);
      assert PhysOf(g, b - g.first) == b;
    }
  }

  lemma SmallRem(n: nat, m: nat)
    requires n < m
    ensures n % m == n
  {}

  // ---- transactions ----

  datatype Copy = Copy(target: u64, data: Block)
  datatype Revoke = Revoke(target: u64, sequence: u64)
  datatype Txn = Txn(sequence: u64, copies: seq<Copy>, revokes: seq<Revoke>)

  function Targets(t: Txn): (xs: seq<u64>)
    ensures |xs| == |t.copies| && forall i :: 0 <= i < |xs| ==> xs[i] == t.copies[i].target
  {
    seq(|t.copies|, i requires 0 <= i < |t.copies| => t.copies[i].target)
  }

  function Payloads(t: Txn): (xs: seq<Block>)
    ensures |xs| == |t.copies| && forall i :: 0 <= i < |xs| ==> xs[i] == t.copies[i].data
  {
    seq(|t.copies|, i requires 0 <= i < |t.copies| => t.copies[i].data)
  }

  function RevokedBlocks(t: Txn): (xs: seq<u64>)
    ensures |xs| == |t.revokes| && forall i :: 0 <= i < |xs| ==> xs[i] == t.revokes[i].target
  {
    seq(|t.revokes|, i requires 0 <= i < |t.revokes| => t.revokes[i].target)
  }

  /** What commit can write: one descriptor, at most one revoke block. */
  predicate Encodable(t: Txn) {
    && |t.copies| <= MAX_TAGS
    && |t.revokes| <= MAX_TAGS
    && forall i :: 0 <= i < |t.revokes| ==> t.revokes[i].sequence == t.sequence
  }

  /**
   Commit puts the revoke block before the payloads and recovery looks for it after them;
   the two agree only on transactions without one of the two.
   */
  predicate LayoutAgrees(t: Txn) {
    t.revokes == [] || t.copies == []
  }

  function Concat(blocks: seq<Block>): (s: seq<byte>)
    ensures |s| == 4096 * |blocks|
  {
    if blocks == [] then [] else blocks[0] + Concat(blocks[1..])
  }

  function ChecksumOf(blocks: seq<Block>): Crc32.Word {
    Crc32.Final(Crc32.Update(Crc32.INIT, Concat(blocks)))
  }

  function DescBlock(t: Txn): Block
    requires Encodable(t)
  {
    ListBlock(DESC_MAGIC, t.sequence, Targets(t))
  }

  function RevokeBlocks(t: Txn): seq<Block>
    requires Encodable(t)
  {
    if t.revokes == [] then [] else [ListBlock(REVOKE_MAGIC, t.sequence, RevokedBlocks(t))]
  }

  /** Everything commit writes before its first flush, in order. */
  function Body(t: Txn): seq<Block>
    requires Encodable(t)
  {
    [DescBlock(t)] + RevokeBlocks(t) + Payloads(t)
  }

  function EncodeTxn(t: Txn): (s: seq<Block>)
    requires Encodable(t)
    ensures |s| == Size(t)
  {
    Body(t) + [CommitBlock(t.sequence, ChecksumOf(Body(t)))]
  }

  /** Slots a transaction occupies. */
  function Size(t: Txn): (n: nat)
    ensures n >= 2
  {
    1 + |t.copies| + (if t.revokes == [] then 0 else 1) + 1
  }

  predicate AllEncodable(txns: seq<Txn>) {
    forall i :: 0 <= i < |txns| ==> Encodable(txns[i])
  }

  function EncodeLog(txns: seq<Txn>): (s: seq<Block>)
    requires AllEncodable(txns)
    ensures |s| >= 2 * |txns|
  {
    if txns == [] then [] else EncodeTxn(txns[0]) + EncodeLog(txns[1..])
  }

  lemma {:induction false} EncodeLogConcat(a: seq<Txn>, b: seq<Txn>)
    requires AllEncodable(a) && AllEncodable(b)
    ensures AllEncodable(a + b) && EncodeLog(a + b) == EncodeLog(a) + EncodeLog(b)
    decreases |a|
  {
    hide EncodeTxn;
    if a == [] {
      assert a + b == b;
    } else {
      assert (a + b)[1..] == a[1..] + b;
      EncodeLogConcat(a[1..], b);
    }
  }

  lemma {:induction false} EncodeLogSnoc(a: seq<Txn>, t: Txn)
    requires AllEncodable(a) && Encodable(t)
    ensures AllEncodable(a + [t]) && EncodeLog(a + [t]) == EncodeLog(a) + EncodeTxn(t)
  {
    hide EncodeTxn;
    EncodeLogConcat(a, [t]);
    assert EncodeLog([t][1..]) == [];
    assert EncodeLog([t]) == EncodeTxn(t);
  }

  // ---- space ----

  function FreeSpace(maxlen: nat, head: nat, tail: nat): int {
    maxlen - (head - tail)
  }

  function SpaceNeeded(ndata: nat, nrevoke: nat): nat {
    if ndata > MAX_TAGS || nrevoke > MAX_TAGS then 0
    else 1 + ndata + (if nrevoke > 0 then 1 else 0) + 1
  }

  // ---- recovery's first pass ----

  datatype Parse = NoTxn | Parsed(txn: Txn, next: nat)

  function RevokeList(b: Block): seq<Revoke> {
    var n := if Count(b) < MAX_TAGS then Count(b) else MAX_TAGS;
    var xs := Entries(b, n);
    seq(n, i requires 0 <= i < n => Revoke(xs[i], Sequence(b)))
  }

  /** One turn of the scan loop: the transaction that starts at off, if it is a valid next one. */
  function ParseAt(img: Image, g: Geometry, off: nat, want: nat): Parse
    requires Fits(g, |img|)
  {
    var desc := Slot(img, g, off);
    if Magic(desc) != DESC_MAGIC || Sequence(desc) != want % U64 || Count(desc) > MAX_TAGS then NoTxn else
    var n := Count(desc);
    var peek := Slot(img, g, off + 1 + n);
    var revoke := if Magic(peek) == REVOKE_MAGIC then [peek] else [];
    var commitOff := off + 1 + n + |revoke|;
    var commit := Slot(img, g, commitOff);
    if !IsCommit(commit) || Sequence(commit) != Sequence(desc) then NoTxn else
    var payloads := Slots(img, g, off + 1, n);
    if FromBits(ChecksumOf([desc] + revoke + payloads)) != Checksum(commit) then NoTxn else
    var targets := Entries(desc, n);
    Parsed(Txn(Sequence(desc),
               seq(n, i requires 0 <= i < n => Copy(targets[i], payloads[i])),
               if revoke == [] then [] else RevokeList(peek)),
           commitOff + 1)
  }

  /** At most n transactions from off on, and the offset behind the last of them. */
  function Scan(img: Image, g: Geometry, off: nat, want: nat, n: nat): (txns: seq<Txn>)
    requires Fits(g, |img|)
    ensures |txns| <= n
    decreases n
  {
    if n == 0 then [] else
    var p := ParseAt(img, g, off, want);
    if p.NoTxn? then [] else [p.txn] + Scan(img, g, p.next, want + 1, n - 1)
  }

  function ScanEnd(img: Image, g: Geometry, off: nat, want: nat, n: nat): nat
    requires Fits(g, |img|)
    decreases n
  {
    if n == 0 then off else
    var p := ParseAt(img, g, off, want);
    if p.NoTxn? then off else ScanEnd(img, g, p.next, want + 1, n - 1)
  }

  // ---- printing and parsing ----

  lemma RevokeListReadsBack(t: Txn)
    requires Encodable(t)
    ensures RevokeList(ListBlock(REVOKE_MAGIC, t.sequence, RevokedBlocks(t))) == t.revokes
  {
    hide ListBlock, Magic, Count, Sequence, EntryAt;
    ListBlockReadsBack(REVOKE_MAGIC, t.sequence, RevokedBlocks(t));
    var b := ListBlock(REVOKE_MAGIC, t.sequence, RevokedBlocks(t));
    assert forall i :: 0 <= i < |t.revokes| ==> RevokeList(b)[i] == t.revokes[i];
  }

  /** The blocks commit wrote for t stand at off. */
  ghost predicate TxnAt(img: Image, g: Geometry, off: nat, t: Txn)
    requires Fits(g, |img|) && Encodable(t)
  {
    Slots(img, g, off, Size(t)) == EncodeTxn(t)
  }

  lemma CommitSlot(img: Image, g: Geometry, off: nat, t: Txn)
    requires Fits(g, |img|) && Encodable(t) && TxnAt(img, g, off, t)
    ensures Slot(img, g, off) == DescBlock(t)
    ensures Slot(img, g, off + Size(t) - 1) == CommitBlock(t.sequence, ChecksumOf(Body(t)))
  {
    var s := Slots(img, g, off, Size(t));
    assert s[0] == Slot(img, g, off + 0);
    assert s[Size(t) - 1] == Slot(img, g, off + Size(t) - 1);
  }

  /** Where recovery finds the parts of a transaction written in an agreed layout. */
  lemma WrittenParts(img: Image, g: Geometry, off: nat, t: Txn)
    requires Fits(g, |img|) && Encodable(t) && LayoutAgrees(t) && TxnAt(img, g, off, t)
    ensures Slots(img, g, off + 1, |t.copies|) == Payloads(t)
    ensures t.revokes != [] ==> [Slot(img, g, off + 1 + |t.copies|)] == RevokeBlocks(t)
    ensures t.revokes == [] ==> off + 1 + |t.copies| == off + Size(t) - 1
    ensures Body(t) == [DescBlock(t)] + RevokeBlocks(t) + Payloads(t)
    ensures t.copies == [] ==> Payloads(t) == []
  {
    hide PhysOf, ListBlock, CommitBlock, ChecksumOf, Slot;
    var s, n := Slots(img, g, off, Size(t)), |t.copies|;
    assert s[1 + n] == Slot(img, g, off + (1 + n));
    forall i | 0 <= i < n ensures Slots(img, g, off + 1, n)[i] == Payloads(t)[i] {
      assert s[1 + i] == Slot(img, g, off + (1 + i));
    }
  }

  /** A transaction written in an agreed layout parses as itself. */
  lemma ParseWritten(img: Image, g: Geometry, off: nat, t: Txn, want: nat)
    requires Fits(g, |img|) && Encodable(t) && LayoutAgrees(t) && TxnAt(img, g, off, t)
    requires t.sequence == want % U64
    ensures ParseAt(img, g, off, want) == Parsed(t, off + Size(t))
  {
    hide PhysOf, ChecksumOf, Magic, Count, Sequence, IsCommit, Checksum, EntryAt, RevokeList, ListBlock, CommitBlock;
    hide EncodeTxn, Body, Slots, TxnAt, Slot;
    var desc, n := DescBlock(t), |t.copies|;
    CommitSlot(img, g, off, t);
    WrittenParts(img, g, off, t);
    ListBlockReadsBack(DESC_MAGIC, t.sequence, Targets(t));
    ListBlockReadsBack(REVOKE_MAGIC, t.sequence, RevokedBlocks(t));
    CommitBlockReadsBack(t.sequence, ChecksumOf(Body(t)));
    CommitMagic(Slot(img, g, off + Size(t) - 1));
    RevokeListReadsBack(t);
    assert seq(n, i requires 0 <= i < n => Copy(Targets(t)[i], Payloads(t)[i])) == t.copies;
  }

  lemma CommitMagic(b: Block)
    ensures IsCommit(b) ==> Magic(b) != REVOKE_MAGIC
  {}

  /** Every payload is, byte for byte, the transaction's own revoke block. */
  predicate Mirrors(t: Txn)
    requires Encodable(t)
  {
    t.revokes != [] && forall i :: 0 <= i < |t.copies| ==> [t.copies[i].data] == RevokeBlocks(t)
  }

  /** Payload i stands behind descriptor and revoke block. */
  ghost predicate PayloadBehind(img: Image, g: Geometry, off: nat, t: Txn, i: nat)
    requires Fits(g, |img|) && i < |t.copies|
  {
    Slot(img, g, off + 2 + i) == t.copies[i].data
  }

  /** The slots of a transaction in the order commit writes them. */
  lemma DisagreeingSlots(img: Image, g: Geometry, off: nat, t: Txn)
    requires Fits(g, |img|) && Encodable(t) && TxnAt(img, g, off, t) && !LayoutAgrees(t)
    ensures Slot(img, g, off) == DescBlock(t)
    ensures [Slot(img, g, off + 1)] == RevokeBlocks(t)
    ensures forall i :: 0 <= i < |t.copies| ==> PayloadBehind(img, g, off, t, i)
    ensures Slot(img, g, off + 1 + |t.copies| + 1) == CommitBlock(t.sequence, ChecksumOf(Body(t)))
  {
    hide PhysOf, ChecksumOf, ListBlock, CommitBlock, Slot;
    var s, n := Slots(img, g, off, Size(t)), |t.copies|;
    CommitSlot(img, g, off, t);
    assert s[1] == Slot(img, g, off + 1);
    forall i | 0 <= i < n ensures PayloadBehind(img, g, off, t, i) {
      assert s[2 + i] == Slot(img, g, off + (2 + i));
    }
  }

  /** A transaction whose payloads all mirror its revoke block reads the same in both layouts. */
  lemma ParseMirrored(img: Image, g: Geometry, off: nat, t: Txn, want: nat)
    requires Fits(g, |img|) && Encodable(t) && TxnAt(img, g, off, t) && !LayoutAgrees(t) && Mirrors(t)
    requires t.sequence == want % U64
    ensures ParseAt(img, g, off, want) == Parsed(t, off + Size(t))
  {
    hide PhysOf, ChecksumOf, Magic, Count, Sequence, IsCommit, Checksum, EntryAt, RevokeList, ListBlock, CommitBlock;
    hide TxnAt, Slot, EncodeTxn;
    var desc, n, r := DescBlock(t), |t.copies|, RevokeBlocks(t)[0];
    DisagreeingSlots(img, g, off, t);
    ListBlockReadsBack(DESC_MAGIC, t.sequence, Targets(t));
    ListBlockReadsBack(REVOKE_MAGIC, t.sequence, RevokedBlocks(t));
    CommitBlockReadsBack(t.sequence, ChecksumOf(Body(t)));
    RevokeListReadsBack(t);
    assert PayloadBehind(img, g, off, t, n - 1) && Slot(img, g, off + 1 + n) == r;
    forall i | 0 <= i < n ensures Slots(img, g, off + 1, n)[i] == Payloads(t)[i] {
      assert i > 0 ==> PayloadBehind(img, g, off, t, i - 1);
    }
    assert Slots(img, g, off + 1, n) == Payloads(t);
    assert [desc] + [r] + Payloads(t) == Body(t);
    assert seq(n, i requires 0 <= i < n => Copy(Targets(t)[i], Payloads(t)[i])) == t.copies;
  }

  /** Found as itself, each payload is the block before it in the log, the first the revoke block. */
  lemma {:induction false} FoundMirrors(img: Image, g: Geometry, off: nat, t: Txn, want: nat, next: nat, i: nat)
    requires Fits(g, |img|) && Encodable(t) && TxnAt(img, g, off, t) && !LayoutAgrees(t)
    requires ParseAt(img, g, off, want) == Parsed(t, next) && i < |t.copies|
    ensures [t.copies[i].data] == RevokeBlocks(t)
  {
    hide PhysOf, ChecksumOf, Magic, Count, Sequence, IsCommit, Checksum, EntryAt, RevokeList, ListBlock, CommitBlock;
    hide TxnAt, Slot, EncodeTxn;
    DisagreeingSlots(img, g, off, t);
    ListBlockReadsBack(DESC_MAGIC, t.sequence, Targets(t));
    assert t.copies[i].data == Slots(img, g, off + 1, |t.copies|)[i];
    if i > 0 {
      assert PayloadBehind(img, g, off, t, i - 1);
      FoundMirrors(img, g, off, t, want, next, i - 1);
    }
  }

  /**
   A transaction that commit has written is found again as itself if and only if it has no
   revokes or no payloads, or every payload happens to be its revoke block.
   */
  lemma ParseExact(img: Image, g: Geometry, off: nat, t: Txn, want: nat)
    requires Fits(g, |img|) && Encodable(t) && TxnAt(img, g, off, t) && t.sequence == want % U64
    ensures ParseAt(img, g, off, want) == Parsed(t, off + Size(t)) <==> LayoutAgrees(t) || Mirrors(t)
    ensures ParseAt(img, g, off, want).Parsed? && ParseAt(img, g, off, want).txn == t
       <==> LayoutAgrees(t) || Mirrors(t)
  {
    hide PhysOf, ParseAt, EncodeTxn, TxnAt, RevokeBlocks;
    if LayoutAgrees(t) {
      ParseWritten(img, g, off, t, want);
    } else if Mirrors(t) {
      ParseMirrored(img, g, off, t, want);
    } else {
      var p := ParseAt(img, g, off, want);
      if p.Parsed? && p.txn == t {
        forall i | 0 <= i < |t.copies| ensures [t.copies[i].data] == RevokeBlocks(t) {
          FoundMirrors(img, g, off, t, want, p.next, i);
        }
      }
    }
  }

  /** Sequence numbers of a run of transactions, starting with want. */
  ghost predicate Consecutive(txns: seq<Txn>, want: nat) {
    forall i :: 0 <= i < |txns| ==> txns[i].sequence == (want + i) % U64
  }

  ghost predicate Readable(txns: seq<Txn>) {
    AllEncodable(txns) && forall i :: 0 <= i < |txns| ==> LayoutAgrees(txns[i])
  }

  ghost predicate LogAt(img: Image, g: Geometry, off: nat, txns: seq<Txn>)
    requires Fits(g, |img|) && AllEncodable(txns)
  {
    Slots(img, g, off, |EncodeLog(txns)|) == EncodeLog(txns)
  }

  lemma LogAtSplit(img: Image, g: Geometry, off: nat, t: Txn, rest: seq<Txn>)
    requires Fits(g, |img|) && Encodable(t) && AllEncodable(rest) && AllEncodable([t] + rest)
    requires LogAt(img, g, off, [t] + rest)
    ensures TxnAt(img, g, off, t) && LogAt(img, g, off + Size(t), rest)
  {
    hide PhysOf, EncodeTxn, Slot;
    assert ([t] + rest)[1..] == rest;
    var s := Slots(img, g, off, |EncodeLog([t] + rest)|);
    assert s == EncodeTxn(t) + EncodeLog(rest);
    forall i | 0 <= i < Size(t) ensures Slots(img, g, off, Size(t))[i] == EncodeTxn(t)[i] {
      assert s[i] == Slot(img, g, off + i);
    }
    forall i | 0 <= i < |EncodeLog(rest)|
      ensures Slots(img, g, off + Size(t), |EncodeLog(rest)|)[i] == EncodeLog(rest)[i]
    {
      assert s[Size(t) + i] == Slot(img, g, off + (Size(t) + i));
    }
  }

  /**
   Print and parse: the scan reads back exactly the transactions written, in order, and
   goes on behind them. Nothing here bounds off: the log may wrap, and may fill the region.
   */
  lemma {:induction false} ScanReads(img: Image, g: Geometry, off: nat, txns: seq<Txn>, want: nat, n: nat)
    requires Fits(g, |img|) && Readable(txns) && LogAt(img, g, off, txns) && Consecutive(txns, want)
    requires |txns| <= n
    ensures Scan(img, g, off, want, n)
         == txns + Scan(img, g, off + |EncodeLog(txns)|, want + |txns|, n - |txns|)
    ensures ScanEnd(img, g, off, want, n)
         == ScanEnd(img, g, off + |EncodeLog(txns)|, want + |txns|, n - |txns|)
    decreases |txns|
  {
    hide PhysOf, ParseAt, EncodeTxn, Slots, LogAt;
    if txns != [] {
      var t, rest := txns[0], txns[1..];
      assert txns == [t] + rest;
      LogAtSplit(img, g, off, t, rest);
      assert t.sequence == (want + 0) % U64;
      ParseWritten(img, g, off, t, want);
      forall i | 0 <= i < |rest| ensures rest[i].sequence == (want + 1 + i) % U64 && LayoutAgrees(rest[i]) {
        assert rest[i] == txns[1 + i];
      }
      ScanReads(img, g, off + Size(t), rest, want + 1, n - 1);
    }
  }

  /** No block of the region reads as a commit block numbered n or more. */
  ghost predicate Fresh(img: Image, g: Geometry, n: nat)
    requires Fits(g, |img|)
  {
    forall b :: g.first <= b < g.first + g.maxlen && IsCommit(img[b]) ==> Sequence(img[b]) < n
  }

  lemma FreshStops(img: Image, g: Geometry, off: nat, want: nat)
    requires Fits(g, |img|) && Fresh(img, g, want) && want < U64
    ensures ParseAt(img, g, off, want) == NoTxn
  {
    hide PhysOf, ChecksumOf, Magic, Count, Sequence, IsCommit, Checksum, EntryAt, RevokeList;
  }

  /**
   The scan of a log stops exactly at its end if and only if no valid transaction with the
   next number stands there.
   */
  lemma {:induction false} ScanExact(img: Image, g: Geometry, off: nat, txns: seq<Txn>, want: nat, n: nat)
    requires Fits(g, |img|) && Readable(txns) && LogAt(img, g, off, txns) && Consecutive(txns, want)
    requires |txns| < n
    ensures Scan(img, g, off, want, n) == txns
       <==> ParseAt(img, g, off + |EncodeLog(txns)|, want + |txns|) == NoTxn
  {
    hide PhysOf, ParseAt, EncodeTxn, Slots, LogAt, Consecutive;
    ScanReads(img, g, off, txns, want, n);
  }

  /** In a fresh region the scan returns the log and stops behind it. */
  lemma {:induction false} ScanFresh(img: Image, g: Geometry, off: nat, txns: seq<Txn>, want: nat, n: nat)
    requires Fits(g, |img|) && Readable(txns) && LogAt(img, g, off, txns) && Consecutive(txns, want)
    requires |txns| < n && want + |txns| < U64 && Fresh(img, g, want + |txns|)
    ensures Scan(img, g, off, want, n) == txns
    ensures ScanEnd(img, g, off, want, n) == off + |EncodeLog(txns)|
  {
    hide PhysOf, ParseAt, EncodeTxn, Slots, LogAt, Consecutive, Fresh;
    ScanReads(img, g, off, txns, want, n);
    FreshStops(img, g, off + |EncodeLog(txns)|, want + |txns|);
  }

  // ---- the scan is bounded on arbitrary content ----

  /** The blocks in which the scan accepts descriptors. */
  function DescBlocks(img: Image, g: Geometry, off: nat, want: nat, n: nat): (bs: seq<nat>)
    requires Fits(g, |img|)
    ensures |bs| == |Scan(img, g, off, want, n)|
    decreases n
  {
    if n == 0 then [] else
    var p := ParseAt(img, g, off, want);
    if p.NoTxn? then [] else [PhysOf(g, off)] + DescBlocks(img, g, p.next, want + 1, n - 1)
  }

  lemma {:induction false} DescBlocksCarry(img: Image, g: Geometry, off: nat, want: nat, n: nat, i: nat)
    requires Fits(g, |img|) && i < |Scan(img, g, off, want, n)|
    ensures var b := DescBlocks(img, g, off, want, n)[i];
            g.first <= b < g.first + g.maxlen && Sequence(img[b]) == (want + i) % U64
    decreases n
  {
    hide PhysOf, ChecksumOf, Magic, Count, Sequence, IsCommit, Checksum, EntryAt, RevokeList;
    if i > 0 {
      var p := ParseAt(img, g, off, want);
      DescBlocksCarry(img, g, p.next, want + 1, n - 1, i - 1);
      assert want + 1 + (i - 1) == want + i;
    }
  }

  function Interval(lo: nat, m: nat): (s: set<nat>)
    ensures |s| == m && forall x :: x in s <==> lo <= x < lo + m
  {
    if m == 0 then {} else Interval(lo, m - 1) + {lo + m - 1}
  }

  /** A sequence without repetitions is no longer than the set it draws from. */
  lemma {:induction false} Pigeonhole<T>(xs: seq<T>, space: set<T>)
    requires forall i :: 0 <= i < |xs| ==> xs[i] in space
    requires forall i, j :: 0 <= i < j < |xs| ==> xs[i] != xs[j]
    ensures |xs| <= |space|
    decreases |xs|
  {
    if xs != [] {
      Pigeonhole(xs[1..], space - {xs[0]});
    }
  }

  /** A set whose elements all occur in a sequence is no larger than it is long. */
  lemma {:induction false} Covering<T>(keys: set<T>, bs: seq<T>)
    requires forall b :: b in keys ==> b in bs
    ensures |keys| <= |bs|
    decreases |bs|
  {
    if bs != [] {
      var rest := keys - {bs[0]};
      forall b | b in rest ensures b in bs[1..] {
        var i :| 0 <= i < |bs| && bs[i] == b;
        assert bs[1..][i - 1] == b;
      }
      Covering(rest, bs[1..]);
    } else {
      assert keys == {};
    }
  }

  lemma {:induction false} ScanPrefix(img: Image, g: Geometry, off: nat, want: nat, k: nat, n: nat)
    requires Fits(g, |img|) && k <= n
    ensures Scan(img, g, off, want, k) <= Scan(img, g, off, want, n)
    ensures |Scan(img, g, off, want, n)| <= k ==> Scan(img, g, off, want, k) == Scan(img, g, off, want, n)
    ensures |Scan(img, g, off, want, n)| >= k ==> |Scan(img, g, off, want, k)| == k
    decreases n
  {
    hide PhysOf, ChecksumOf, Magic, Count, Sequence, IsCommit, Checksum, EntryAt, RevokeList;
    if k > 0 {
      var p := ParseAt(img, g, off, want);
      if p.Parsed? {
        ScanPrefix(img, g, p.next, want + 1, k - 1, n - 1);
      }
    }
  }

  /**
   Whatever the disk holds, the scan accepts at most one transaction per block of the
   region: the accepted descriptors carry different numbers, so they are different blocks.
   */
  lemma {:induction false} ScanBounded(img: Image, g: Geometry, off: nat, want: nat, n: nat)
    requires Fits(g, |img|)
    ensures |Scan(img, g, off, want, n)| <= g.maxlen
  {
    hide PhysOf, ChecksumOf, Magic, Count, Sequence, IsCommit, Checksum, EntryAt, RevokeList;
    if |Scan(img, g, off, want, n)| > g.maxlen {
      var k := g.maxlen + 1;
      ScanPrefix(img, g, off, want, k, n);
      var bs := DescBlocks(img, g, off, want, k);
      forall i | 0 <= i < |bs|
        ensures g.first <= bs[i] < g.first + g.maxlen && Sequence(img[bs[i]]) == (want + i) % U64
      {
        DescBlocksCarry(img, g, off, want, k, i);
      }
      forall i, j | 0 <= i < j < |bs| ensures bs[i] != bs[j] {
        ModGap(want + i, want + j, U64);
      }
      Pigeonhole(bs, Interval(g.first, g.maxlen));
    }
  }
}
