/**
 Allocators, files and directories over a map from block number to content: the map that
 the transaction manager's readers see. Loops over bits, blocks, chunks and slots run in
 place on it; what they keep is that every block has at most one owner.
 */
module FileSystem {
  import opened Bytes
  import opened DiskFormat
  import opened Structures

  datatype Layout = Layout(inodeBitmap: nat, blockBitmap: nat, inodeTable: nat, tableLen: nat,
                           dataStart: nat, totalBlocks: nat, totalInodes: nat)

  type Store = seq<Block>

  /** Largest file: twelve blocks. */
  const CAP: nat := 49152

  const ZEROS: Block := seq(4096, _ => 0)

  /** The regions format lays out behind the journal, with one bitmap block each. */
  predicate LayoutOk(l: Layout) {
    && l.blockBitmap == l.inodeBitmap + 1 && l.inodeTable == l.blockBitmap + 1
    && l.dataStart == l.inodeTable + l.tableLen && 0 < l.dataStart < l.totalBlocks <= U64
    && l.totalInodes <= PER_BLOCK * l.tableLen && l.totalInodes < 8 * 4096
    && l.totalBlocks - l.dataStart <= 8 * 4096
  }

  predicate Fitting(l: Layout, s: Store) {
    LayoutOk(l) && |s| == l.totalBlocks
  }

  predicate IsInode(l: Layout, ino: nat) {
    0 < ino <= l.totalInodes
  }

  predicate IsData(l: Layout, b: nat) {
    l.dataStart <= b < l.totalBlocks
  }

  // ---- inodes ----

  lemma InodeInTable(l: Layout, ino: nat)
    requires LayoutOk(l) && IsInode(l, ino)
    ensures l.inodeTable <= InodeBlock(l.inodeTable, ino) < l.dataStart
  {
    TableHolds(l.inodeTable, l.tableLen, l.totalInodes);
  }

  function InodeAt(l: Layout, s: Store, ino: nat): (i: Inode)
    requires Fitting(l, s) && IsInode(l, ino)
    ensures |i.blocks| == NDIR
  {
    InodeInTable(l, ino);
    var at := InodeOffset(ino);
    DecodeInode(s[InodeBlock(l.inodeTable, ino)][at..at + INODE_SIZE])
  }

  function WithInode(l: Layout, s: Store, ino: nat, i: Inode): (r: Store)
    requires Fitting(l, s) && IsInode(l, ino) && |i.blocks| == NDIR
    ensures Fitting(l, r)
  {
    InodeInTable(l, ino);
    var b := InodeBlock(l.inodeTable, ino);
    s[b := Patch(s[b], InodeOffset(ino), EncodeInode(i))]
  }

  /** Writing an inode changes that inode and nothing outside the table. */
  lemma WithInodeAt(l: Layout, s: Store, ino: nat, i: Inode, jno: nat)
    requires Fitting(l, s) && IsInode(l, ino) && IsInode(l, jno) && |i.blocks| == NDIR
    ensures InodeAt(l, WithInode(l, s, ino, i), jno) == if jno == ino then i else InodeAt(l, s, jno)
  {
    hide EncodeInode, DecodeInode, Patch, InodeOffset;
    InodeInTable(l, ino);
    InodeInTable(l, jno);
    InodeRoundTrip(i);
    var b := InodeBlock(l.inodeTable, ino);
    PatchRead(s[b], InodeOffset(ino), EncodeInode(i), InodeOffset(jno), InodeOffset(jno) + INODE_SIZE);
    if jno != ino && InodeBlock(l.inodeTable, jno) == b {
      InodesApart(l.inodeTable, ino, jno);
    }
  }

  lemma WithInodeElsewhere(l: Layout, s: Store, ino: nat, i: Inode)
    requires Fitting(l, s) && IsInode(l, ino) && |i.blocks| == NDIR
    ensures forall b :: 0 <= b < |s| && !(l.inodeTable <= b < l.dataStart) ==> WithInode(l, s, ino, i)[b] == s[b]
    ensures forall b :: 0 <= b < |s| && b != InodeBlock(l.inodeTable, ino) ==> WithInode(l, s, ino, i)[b] == s[b]
  {
    InodeInTable(l, ino);
  }

  // ---- marks ----

  predicate Marked(l: Layout, s: Store, b: nat)
    requires Fitting(l, s) && IsData(l, b)
  {
    Bit(s[l.blockBitmap], b - l.dataStart)
  }

  function WithMark(l: Layout, s: Store, b: nat, v: bool): (r: Store)
    requires Fitting(l, s) && IsData(l, b)
    ensures Fitting(l, r)
  {
    s[l.blockBitmap := WithBit(s[l.blockBitmap], b - l.dataStart, v)]
  }

  lemma WithMarkAt(l: Layout, s: Store, b: nat, v: bool, c: nat)
    requires Fitting(l, s) && IsData(l, b) && IsData(l, c)
    ensures Marked(l, WithMark(l, s, b, v), c) == if c == b then v else Marked(l, s, c)
  {
    WithBitAt(s[l.blockBitmap], b - l.dataStart, v, c - l.dataStart);
  }

  // ---- ownership ----

  /** The block numbers of an inode: each zero or in the data region and marked, none twice. */
  ghost predicate BlocksOk(l: Layout, s: Store, blocks: seq<u64>)
    requires Fitting(l, s)
  {
    && |blocks| == NDIR
    && (forall k :: 0 <= k < NDIR && blocks[k] != 0 ==> IsData(l, blocks[k]) && Marked(l, s, blocks[k]))
    && (forall k, m :: 0 <= k < m < NDIR && blocks[k] != 0 ==> blocks[k] != blocks[m])
  }

  ghost predicate Apart(a: seq<u64>, b: seq<u64>) {
    forall k, m :: 0 <= k < |a| && 0 <= m < |b| && a[k] != 0 ==> a[k] != b[m]
  }

  /** Every block a live inode refers to is marked, and no other reference to it exists. */
  ghost predicate Owned(l: Layout, s: Store, live: set<nat>) {
    && Fitting(l, s)
    && (forall ino :: ino in live ==>
      IsInode(l, ino) && BlocksOk(l, s, InodeAt(l, s, ino).blocks) && InodeAt(l, s, ino).size <= CAP)
    && (forall ino, jno :: ino in live && jno in live && ino != jno ==>
      Apart(InodeAt(l, s, ino).blocks, InodeAt(l, s, jno).blocks))
  }

  /** Block b was free, or belonged to this inode already. */
  ghost predicate MayTake(l: Layout, s: Store, had: seq<u64>, b: nat)
    requires Fitting(l, s)
  {
    b in had || (IsData(l, b) && !Marked(l, s, b))
  }

  /** Outside the data region only the bitmap of its blocks and the inode's table block may change. */
  ghost predicate Elsewhere(l: Layout, s: Store, t: Store, ino: nat)
    requires Fitting(l, s) && Fitting(l, t) && IsInode(l, ino)
  {
    forall b: nat :: b < |s| && !IsData(l, b) && b != l.blockBitmap && b != InodeBlock(l.inodeTable, ino)
      ==> s[b] == t[b]
  }

  /** What an operation on one inode may do to the store without touching another's blocks. */
  ghost predicate OneInode(l: Layout, s: Store, t: Store, ino: nat, blocks: seq<u64>)
    requires Fitting(l, s) && Fitting(l, t) && IsInode(l, ino)
  {
    && (forall jno :: IsInode(l, jno) && jno != ino ==> InodeAt(l, t, jno) == InodeAt(l, s, jno))
    && InodeAt(l, t, ino).blocks == blocks && Elsewhere(l, s, t, ino)
    && (forall k :: 0 <= k < |blocks| && blocks[k] != 0 ==> MayTake(l, s, InodeAt(l, s, ino).blocks, blocks[k]))
    && (forall b :: IsData(l, b) && Marked(l, s, b) && b !in InodeAt(l, s, ino).blocks ==> Kept(l, s, t, b))
  }

  ghost predicate Kept(l: Layout, s: Store, t: Store, b: nat)
    requires Fitting(l, s) && Fitting(l, t) && IsData(l, b)
  {
    Marked(l, t, b) && t[b] == s[b]
  }

  /** Such an operation keeps the ownership rule, and every other inode's blocks as they were. */
  lemma OwnedUpdate(l: Layout, s: Store, t: Store, live: set<nat>, ino: nat)
    requires Owned(l, s, live) && ino in live && Fitting(l, t)
    requires OneInode(l, s, t, ino, InodeAt(l, t, ino).blocks)
    requires BlocksOk(l, t, InodeAt(l, t, ino).blocks) && InodeAt(l, t, ino).size <= CAP
    ensures Owned(l, t, live)
    ensures forall jno, k :: jno in live && jno != ino && 0 <= k < NDIR && InodeAt(l, s, jno).blocks[k] != 0
              ==> t[InodeAt(l, s, jno).blocks[k]] == s[InodeAt(l, s, jno).blocks[k]]
  {
    hide InodeAt, Marked, Fitting;
    forall jno, k | jno in live && jno != ino && 0 <= k < NDIR && InodeAt(l, s, jno).blocks[k] != 0
      ensures IsData(l, InodeAt(l, s, jno).blocks[k]) && Kept(l, s, t, InodeAt(l, s, jno).blocks[k])
    {
      assert Apart(InodeAt(l, s, jno).blocks, InodeAt(l, s, ino).blocks);
    }
    forall jno | jno in live && jno != ino ensures Apart(InodeAt(l, t, jno).blocks, InodeAt(l, t, ino).blocks) {
      OthersApart(l, s, t, live, ino, jno);
    }
  }

  lemma OthersApart(l: Layout, s: Store, t: Store, live: set<nat>, ino: nat, jno: nat)
    requires Owned(l, s, live) && ino in live && jno in live && jno != ino && Fitting(l, t)
    requires OneInode(l, s, t, ino, InodeAt(l, t, ino).blocks)
    ensures Apart(InodeAt(l, t, jno).blocks, InodeAt(l, t, ino).blocks)
    ensures Apart(InodeAt(l, t, ino).blocks, InodeAt(l, t, jno).blocks)
  {
    hide InodeAt, Marked, Fitting;
    var theirs, ours := InodeAt(l, s, jno).blocks, InodeAt(l, t, ino).blocks;
    assert Apart(theirs, InodeAt(l, s, ino).blocks) && Apart(InodeAt(l, s, ino).blocks, theirs);
    forall k, m | 0 <= k < |theirs| && 0 <= m < |ours| && theirs[k] != 0 ensures theirs[k] != ours[m] {
      if ours[m] != 0 {
        assert MayTake(l, s, InodeAt(l, s, ino).blocks, ours[m]);
      }
    }
  }

  // ---- file content ----

  /** Byte pos of a file: holes read as zeros. */
  function ByteAt(s: Store, blocks: seq<u64>, pos: nat): byte
    requires |blocks| == NDIR && pos < CAP && (blocks[pos / 4096] != 0 ==> blocks[pos / 4096] < |s|)
  {
    if blocks[pos / 4096] == 0 then 0 else s[blocks[pos / 4096]][pos % 4096]
  }

  predicate InStore(s: Store, blocks: seq<u64>) {
    |blocks| == NDIR && forall k :: 0 <= k < NDIR && blocks[k] != 0 ==> blocks[k] < |s|
  }

  lemma BlocksInStore(l: Layout, s: Store, blocks: seq<u64>)
    requires Fitting(l, s) && BlocksOk(l, s, blocks)
    ensures InStore(s, blocks)
  {
    hide Marked;
  }

  datatype Status = Ok | NoSuchInode | TooBig | NoSpace | NotDirectory | BadName | Exists | NotFound

  // ---- a write in progress ----

  /** A block of the old inode that is still held is marked. */
  lemma HeldMarked(l: Layout, s: Store, t: Store, before: seq<u64>, blocks: seq<u64>, b: nat)
    requires Working(l, s, t, before, blocks) && |before| == NDIR && IsData(l, b)
    requires forall m :: 0 <= m < NDIR && before[m] != 0 ==> blocks[m] == before[m]
    ensures b in before ==> Marked(l, t, b)
  {
    hide Marked;
    if b in before {
      var m :| 0 <= m < NDIR && before[m] == b;
      assert blocks[m] == b;
    }
  }

  /** Outside the data region only the bitmap of its blocks has changed: no inode has. */
  ghost predicate SameInodes(l: Layout, s: Store, t: Store)
    requires Fitting(l, s) && Fitting(l, t)
  {
    forall b: nat :: b < |s| && !IsData(l, b) && b != l.blockBitmap ==> s[b] == t[b]
  }

  lemma SameInodeAt(l: Layout, s: Store, t: Store, ino: nat)
    requires Fitting(l, s) && Fitting(l, t) && SameInodes(l, s, t) && IsInode(l, ino)
    ensures InodeAt(l, s, ino) == InodeAt(l, t, ino)
  {
    InodeInTable(l, ino);
  }

  predicate Named(blocks: seq<u64>, b: nat) {
    b != 0 && b in blocks
  }

  /** Marked are the blocks held now, and of the others those that were marked and not held before. */
  ghost predicate MarksMoved(l: Layout, s: Store, t: Store, before: seq<u64>, blocks: seq<u64>)
    requires Fitting(l, s) && Fitting(l, t)
  {
    forall b: nat :: IsData(l, b) ==>
      (Marked(l, t, b) <==> Named(blocks, b) || (Marked(l, s, b) && !Named(before, b)))
  }

  /** No data block has changed but those held before or now. */
  ghost predicate DataKept(l: Layout, s: Store, t: Store, before: seq<u64>, blocks: seq<u64>)
    requires Fitting(l, s) && Fitting(l, t)
  {
    forall b: nat :: IsData(l, b) && !Named(before, b) && !Named(blocks, b) ==> s[b] == t[b]
  }

  /**
   Exactly what an operation on one inode has changed in the data region: the marks of the
   blocks it gained or lost, and content in blocks it had or has.
   */
  ghost predicate OwnChange(l: Layout, s: Store, t: Store, before: seq<u64>, blocks: seq<u64>)
    requires Fitting(l, s) && Fitting(l, t)
  {
    MarksMoved(l, s, t, before, blocks) && DataKept(l, s, t, before, blocks)
  }

  /**
   From store s on, an operation has reached store t and holds these blocks for its inode,
   which had the blocks before: what it holds is marked and its own, and nobody else has
   lost a block or a byte.
   */
  ghost predicate Working(l: Layout, s: Store, t: Store, before: seq<u64>, blocks: seq<u64>) {
    && Fitting(l, s) && Fitting(l, t) && SameInodes(l, s, t)
    && BlocksOk(l, t, blocks) && OwnChange(l, s, t, before, blocks)
    && (forall k :: 0 <= k < NDIR && blocks[k] != 0 ==> MayTake(l, s, before, blocks[k]))
    && (forall b :: IsData(l, b) && Marked(l, s, b) && b !in before ==> Kept(l, s, t, b))
  }

  lemma NamedUpdate(blocks: seq<u64>, k: nat, b: u64)
    requires k < |blocks|
    ensures blocks[k] == 0 && b != 0 ==>
      forall c: nat :: Named(blocks[k := b], c) <==> Named(blocks, c) || c == b
    ensures (forall i, j :: 0 <= i < j < |blocks| && blocks[i] != 0 ==> blocks[i] != blocks[j]) && b == 0 ==>
      forall c: nat :: Named(blocks[k := b], c) <==> Named(blocks, c) && c != blocks[k]
  {
    var held := blocks[k := b];
    forall c: nat | c != 0
      ensures Named(held, c) <==> (c == b || exists m :: 0 <= m < |blocks| && m != k && blocks[m] == c)
    {
      if c in held {
        var m :| 0 <= m < |held| && held[m] == c;
        assert m != k ==> blocks[m] == c;
      }
      if m :| 0 <= m < |blocks| && m != k && blocks[m] == c {
        assert held[m] == c;
      }
      assert held[k] == b;
    }
    forall c: nat | c != 0
      ensures Named(blocks, c) <==> (c == blocks[k] || exists m :: 0 <= m < |blocks| && m != k && blocks[m] == c)
    {
    }
  }

  /** A free block becomes block k of the file. */
  lemma TakeBlock(l: Layout, s: Store, t: Store, before: seq<u64>, blocks: seq<u64>, k: nat, b: u64)
    requires Working(l, s, t, before, blocks) && k < NDIR && blocks[k] == 0
    requires IsData(l, b) && !Marked(l, t, b)
    requires b in before ==> Marked(l, t, b)
    ensures Working(l, s, WithMark(l, t, b, true), before, blocks[k := b])
  {
    hide Marked, WithMark;
    var u, held := WithMark(l, t, b, true), blocks[k := b];
    MarkElsewhere(l, t, b, true);
    forall c | IsData(l, c) ensures Marked(l, u, c) <==> Marked(l, t, c) || c == b {
      WithMarkAt(l, t, b, true, c);
    }
    assert MayTake(l, s, before, b);
    NamedUpdate(blocks, k, b);
    assert SameInodes(l, s, u) && DataKept(l, s, u, before, held);
    forall c | IsData(l, c) && Marked(l, s, c) && c !in before ensures Kept(l, s, u, c) {
      assert Kept(l, s, t, c);
    }
  }

  lemma MarkElsewhere(l: Layout, s: Store, b: nat, v: bool)
    requires Fitting(l, s) && IsData(l, b)
    ensures forall c :: 0 <= c < |s| && c != l.blockBitmap ==> WithMark(l, s, b, v)[c] == s[c]
  {
    hide WithBit;
  }

  /** Block k of the file gets new content. */
  lemma FillBlock(l: Layout, s: Store, t: Store, before: seq<u64>, blocks: seq<u64>, k: nat, content: Block)
    requires Working(l, s, t, before, blocks) && k < NDIR && blocks[k] != 0
    ensures Working(l, s, t[blocks[k] := content], before, blocks)
  {
    var u := t[blocks[k] := content];
    assert IsData(l, blocks[k]);
    SameMarks(l, t, u);
    hide Marked;
    assert MayTake(l, s, before, blocks[k]);
    forall c | IsData(l, c) && Marked(l, s, c) && c !in before ensures Kept(l, s, u, c) {
      assert Kept(l, s, t, c);
    }
  }

  lemma SameMarks(l: Layout, s: Store, t: Store)
    requires Fitting(l, s) && Fitting(l, t) && s[l.blockBitmap] == t[l.blockBitmap]
    ensures forall b :: IsData(l, b) ==> (Marked(l, s, b) <==> Marked(l, t, b))
  {
    hide Bit;
  }

  /** What filling a block does to the bytes of the file. */
  lemma FillBytes(s: Store, blocks: seq<u64>, k: nat, at: nat, bytes: seq<byte>, q: nat)
    requires InStore(s, blocks) && k < NDIR && blocks[k] != 0 && at + |bytes| <= 4096 && q < CAP
    requires forall i, j :: 0 <= i < j < NDIR && blocks[i] != 0 ==> blocks[i] != blocks[j]
    ensures var u := s[blocks[k] := Patch(s[blocks[k]], at, bytes)];
            InStore(u, blocks) && ByteAt(u, blocks, q)
            == if q / 4096 == k && at <= q % 4096 < at + |bytes| then bytes[q % 4096 - at] else ByteAt(s, blocks, q)
  {
    var i := q / 4096;
    if i != k && blocks[i] != 0 {
      assert blocks[if i < k then i else k] != blocks[if i < k then k else i];
    }
  }

  /** Done bytes of data stand in the file from offset on, and its other bytes are the old ones. */
  ghost predicate WrittenSoFar(s: Store, t: Store, before: seq<u64>, blocks: seq<u64>, offset: nat, data: seq<byte>,
                               done: nat)
    requires InStore(s, before) && InStore(t, blocks) && done <= |data| && offset + |data| <= CAP
  {
    && (forall q :: offset <= q < offset + done ==> blocks[q / 4096] != 0 && ByteAt(t, blocks, q) == data[q - offset])
    && (forall q :: 0 <= q < CAP && !(offset <= q < offset + done) && before[q / 4096] != 0
          ==> (blocks[q / 4096] == before[q / 4096] && ByteAt(t, blocks, q) == ByteAt(s, before, q)))
  }

  /** A claimed block changes no byte that was there before. */
  lemma ClaimKeeps(l: Layout, s: Store, t: Store, u: Store, before: seq<u64>, blocks: seq<u64>, held: seq<u64>, k: nat,
                   offset: nat, data: seq<byte>, done: nat)
    requires InStore(s, before) && InStore(t, blocks) && InStore(u, held) && done < |data| && offset + |data| <= CAP
    requires k == (offset + done) / 4096 && held[k] != 0
    requires if blocks[k] != 0 then held == blocks else held == blocks[k := held[k]]
    requires |u| == |t| && forall m :: 0 <= m < NDIR && blocks[m] != 0 ==> u[blocks[m]] == t[blocks[m]]
    requires forall m :: 0 <= m < NDIR && before[m] != 0 ==> blocks[m] == before[m]
    requires WrittenSoFar(s, t, before, blocks, offset, data, done)
    ensures WrittenSoFar(s, u, before, held, offset, data, done)
    ensures forall m :: 0 <= m < NDIR && before[m] != 0 ==> held[m] == before[m]
  {
    forall q | 0 <= q < CAP && blocks[q / 4096] != 0 ensures ByteAt(u, held, q) == ByteAt(t, blocks, q) {
    }
  }

  /** One chunk more. */
  lemma ChunkWritten(s: Store, t: Store, before: seq<u64>, held: seq<u64>, offset: nat, data: seq<byte>, done: nat,
                     chunk: nat)
    requires InStore(s, before) && InStore(t, held) && done + chunk <= |data| && offset + |data| <= CAP && chunk > 0
    requires forall i, j :: 0 <= i < j < NDIR && held[i] != 0 ==> held[i] != held[j]
    requires (offset + done) % 4096 + chunk <= 4096 && held[(offset + done) / 4096] != 0
    requires WrittenSoFar(s, t, before, held, offset, data, done)
    ensures var k, at := (offset + done) / 4096, (offset + done) % 4096;
            var u := t[held[k] := Patch(t[held[k]], at, data[done..done + chunk])];
            InStore(u, held) && WrittenSoFar(s, u, before, held, offset, data, done + chunk)
  {
    hide Patch;
    var k, at := (offset + done) / 4096, (offset + done) % 4096;
    var u := t[held[k] := Patch(t[held[k]], at, data[done..done + chunk])];
    forall q | 0 <= q < CAP
      ensures ByteAt(u, held, q)
           == if offset + done <= q < offset + done + chunk then data[q - offset] else ByteAt(t, held, q)
    {
      FillBytes(t, held, k, at, data[done..done + chunk], q);
      InChunk(offset + done, chunk, q);
    }
    forall q | offset + done <= q < offset + done + chunk ensures held[q / 4096] != 0 {
      SameBlock(offset + done, q);
    }
  }

  lemma InChunk(pos: nat, chunk: nat, q: nat)
    requires pos % 4096 + chunk <= 4096
    ensures q / 4096 == pos / 4096 && pos % 4096 <= q % 4096 < pos % 4096 + chunk <==> pos <= q < pos + chunk
    ensures pos <= q < pos + chunk ==> q % 4096 - pos % 4096 == q - pos
  {}

  /** A write that stopped after done bytes, seen through the blocks the file had before. */
  ghost predicate StoppedAfter(s: Store, t: Store, blocks: seq<u64>, offset: nat, data: seq<byte>, done: nat) {
    && InStore(s, blocks) && InStore(t, blocks) && done < |data| && offset + |data| <= CAP
    && blocks[(offset + done) / 4096] == 0
    && (forall q :: 0 <= q < CAP && blocks[q / 4096] != 0 ==>
          (ByteAt(t, blocks, q) == if offset <= q < offset + done then data[q - offset] else ByteAt(s, blocks, q)))
  }

  lemma Stopped(s: Store, t: Store, before: seq<u64>, blocks: seq<u64>, offset: nat, data: seq<byte>, done: nat)
    requires InStore(s, before) && InStore(t, blocks) && done < |data| && offset + |data| <= CAP
    requires WrittenSoFar(s, t, before, blocks, offset, data, done) && before[(offset + done) / 4096] == 0
    requires forall m :: 0 <= m < NDIR && before[m] != 0 ==> blocks[m] == before[m]
    ensures StoppedAfter(s, t, before, offset, data, done)
  {
    forall q | 0 <= q < CAP && before[q / 4096] != 0 ensures ByteAt(t, before, q) == ByteAt(t, blocks, q) {
    }
  }

  /** Block b is marked although no live inode refers to it. */
  ghost predicate Leaked(l: Layout, s: Store, live: set<nat>, b: nat)
    requires Owned(l, s, live)
  {
    IsData(l, b) && Marked(l, s, b) && forall ino :: ino in live ==> b !in InodeAt(l, s, ino).blocks
  }

  /** With no block left, exactly the blocks that were free before have been taken for nothing. */
  lemma FreeLeaks(l: Layout, s: Store, t: Store, live: set<nat>, ino: nat)
    requires Owned(l, s, live) && Owned(l, t, live) && ino in live && Free(l, t) == {}
    requires OneInode(l, s, t, ino, InodeAt(l, t, ino).blocks) && InodeAt(l, t, ino) == InodeAt(l, s, ino)
    ensures forall b :: b in Free(l, s) ==> Leaked(l, t, live, b)
    ensures forall b: nat :: Leaked(l, t, live, b) ==> b in Free(l, s) || Leaked(l, s, live, b)
  {
    hide InodeAt, Marked;
    forall b: nat | IsData(l, b) ensures Marked(l, t, b) || b in Free(l, t) {
    }
    forall b | b in Free(l, s) ensures Leaked(l, t, live, b) {
      forall jno | jno in live ensures b !in InodeAt(l, t, jno).blocks {
        NotTheirs(l, s, live, jno, b);
      }
    }
    forall b: nat | Leaked(l, t, live, b) ensures b in Free(l, s) || Leaked(l, s, live, b) {
      assert Marked(l, s, b) || b in Free(l, s);
    }
  }

  lemma StillLeaked(l: Layout, s: Store, t: Store, live: set<nat>, ino: nat)
    requires Owned(l, s, live) && Owned(l, t, live) && ino in live
    requires OneInode(l, s, t, ino, InodeAt(l, t, ino).blocks) && InodeAt(l, t, ino) == InodeAt(l, s, ino)
    ensures forall b: nat :: Leaked(l, s, live, b) ==> Leaked(l, t, live, b)
  {
    hide InodeAt, Marked;
    forall b: nat | Leaked(l, s, live, b) ensures Leaked(l, t, live, b) {
      assert Kept(l, s, t, b);
    }
  }

  lemma NotTheirs(l: Layout, s: Store, live: set<nat>, ino: nat, b: nat)
    requires Owned(l, s, live) && ino in live && IsData(l, b) && !Marked(l, s, b) && b != 0
    ensures b !in InodeAt(l, s, ino).blocks
  {
    hide InodeAt, Marked;
    var blocks := InodeAt(l, s, ino).blocks;
    forall k | 0 <= k < |blocks| ensures blocks[k] != b {
      assert blocks[k] != 0 ==> IsData(l, blocks[k]) && Marked(l, s, blocks[k]);
    }
  }

  lemma NothingWritten(s: Store, before: seq<u64>, offset: nat, data: seq<byte>)
    requires InStore(s, before) && offset + |data| <= CAP
    ensures WrittenSoFar(s, s, before, before, offset, data, 0)
  {}

  lemma NothingDone(l: Layout, s: Store, blocks: seq<u64>)
    requires Fitting(l, s) && BlocksOk(l, s, blocks)
    ensures Working(l, s, s, blocks, blocks)
  {
    hide Marked;
  }

  /** The inode of a finished operation goes into the table. */
  lemma Finish(l: Layout, s: Store, t: Store, live: set<nat>, ino: nat, i: Inode)
    requires Owned(l, s, live) && ino in live && Working(l, s, t, InodeAt(l, s, ino).blocks, i.blocks) && i.size <= CAP
    ensures var u := WithInode(l, t, ino, i);
            && Owned(l, u, live) && InodeAt(l, u, ino) == i && OneInode(l, s, u, ino, i.blocks)
            && OwnChange(l, s, u, InodeAt(l, s, ino).blocks, i.blocks)
            && forall b :: 0 <= b < |t| && !(l.inodeTable <= b < l.dataStart) ==> u[b] == t[b]
  {
    hide Marked, WithInode, InodeAt;
    var u := WithInode(l, t, ino, i);
    WithInodeAt(l, t, ino, i, ino);
    WithInodeElsewhere(l, t, ino, i);
    SameMarks(l, t, u);
    forall jno | IsInode(l, jno) && jno != ino ensures InodeAt(l, u, jno) == InodeAt(l, s, jno) {
      WithInodeAt(l, t, ino, i, jno);
      SameInodeAt(l, s, t, jno);
    }
    assert OneInode(l, s, u, ino, i.blocks) by {
      forall b | IsData(l, b) && Marked(l, s, b) && b !in InodeAt(l, s, ino).blocks ensures Kept(l, s, u, b) {
        assert Kept(l, s, t, b);
      }
      assert Elsewhere(l, s, u, ino);
    }
    OwnedUpdate(l, s, u, live, ino);
  }

  /** An operation that stops before its inode is written has taken blocks from nobody. */
  lemma Abandon(l: Layout, s: Store, t: Store, live: set<nat>, ino: nat, blocks: seq<u64>)
    requires Owned(l, s, live) && ino in live && Working(l, s, t, InodeAt(l, s, ino).blocks, blocks)
    requires forall m :: 0 <= m < NDIR && InodeAt(l, s, ino).blocks[m] != 0 ==>
             blocks[m] == InodeAt(l, s, ino).blocks[m]
    ensures Owned(l, t, live) && InodeAt(l, t, ino) == InodeAt(l, s, ino)
    ensures OneInode(l, s, t, ino, InodeAt(l, s, ino).blocks)
  {
    hide Marked, InodeAt;
    forall jno | IsInode(l, jno) ensures InodeAt(l, t, jno) == InodeAt(l, s, jno) {
      SameInodeAt(l, s, t, jno);
    }
    OwnedUpdate(l, s, t, live, ino);
  }

  /** The mark of block b is gone, and nothing else has changed. */
  ghost predicate MarkCleared(l: Layout, s: Store, t: Store, b: nat)
    requires Fitting(l, s) && Fitting(l, t)
  {
    && (forall c: nat :: IsData(l, c) ==> (Marked(l, t, c) <==> Marked(l, s, c) && c != b))
    && (forall k :: 0 <= k < |s| && k != l.blockBitmap ==> t[k] == s[k])
  }

  lemma ClearMark(l: Layout, s: Store, b: nat)
    requires Fitting(l, s) && IsData(l, b)
    ensures MarkCleared(l, s, WithMark(l, s, b, false), b)
  {
    hide Marked, WithMark;
    MarkElsewhere(l, s, b, false);
    forall c: nat | IsData(l, c) ensures Marked(l, WithMark(l, s, b, false), c) <==> Marked(l, s, c) && c != b {
      WithMarkAt(l, s, b, false, c);
    }
  }

  /** Allocating a block and freeing it again leaves the store as it was. */
  lemma AllocThenFree(l: Layout, s: Store, b: nat)
    requires Fitting(l, s) && IsData(l, b) && !Marked(l, s, b)
    ensures WithMark(l, WithMark(l, s, b, true), b, false) == s
  {
    var i := b - l.dataStart;
    var x := s[l.blockBitmap];
    var marked := WithBit(x, i, true);
    ByteBitsRoundTrip(x[i / 8], ByteBits(x[i / 8])[i % 8 := true]);
    assert ByteBits(marked[i / 8])[i % 8 := false] == ByteBits(x[i / 8]);
    assert WithBit(marked, i, false)[i / 8] == x[i / 8];
    assert WithBit(marked, i, false) == x;
  }

  /** Block k of the file is given back. */
  lemma DropBlock(l: Layout, s: Store, t: Store, u: Store, before: seq<u64>, blocks: seq<u64>, k: nat)
    requires Working(l, s, t, before, blocks) && k < NDIR && blocks[k] != 0 && blocks[k] in before
    requires Fitting(l, u) && MarkCleared(l, t, u, blocks[k])
    ensures Working(l, s, u, before, blocks[k := 0])
  {
    hide Marked;
    NamedUpdate(blocks, k, 0);
    assert SameInodes(l, s, u) && OwnChange(l, s, u, before, blocks[k := 0]);
    forall c: nat | IsData(l, c) && Marked(l, s, c) && c !in before ensures Kept(l, s, u, c) {
      assert Kept(l, s, t, c);
    }
  }

  lemma HeldData(l: Layout, s: Store, t: Store, before: seq<u64>, blocks: seq<u64>, k: nat)
    requires Working(l, s, t, before, blocks) && k < NDIR && blocks[k] != 0
    ensures IsData(l, blocks[k])
  {
    hide Marked;
  }

  /** Blocks before index i beyond the first keep have been freed, the rest are held. */
  ghost predicate FreedUpTo(l: Layout, s: Store, t: Store, before: seq<u64>, blocks: seq<u64>, keep: nat, i: nat)
    requires Fitting(l, s) && Fitting(l, t) && |before| == |blocks| == NDIR
  {
    && (forall k :: 0 <= k < NDIR ==> blocks[k] == if keep <= k < i then 0 else before[k])
    && (forall b: nat :: IsData(l, b) ==> t[b] == s[b])
    && (forall b: nat :: IsData(l, b) ==> (Marked(l, t, b) <==> Marked(l, s, b) && !Within(before, keep, i, b)))
  }

  predicate Within(blocks: seq<u64>, from: nat, to: nat, b: nat) {
    exists k :: from <= k < to && k < |blocks| && blocks[k] == b && b != 0
  }

  lemma FreeOne(l: Layout, s: Store, t: Store, u: Store, before: seq<u64>, blocks: seq<u64>, keep: nat, i: nat)
    requires Fitting(l, s) && Fitting(l, t) && Fitting(l, u) && |before| == |blocks| == NDIR && keep <= i < NDIR
    requires FreedUpTo(l, s, t, before, blocks, keep, i)
    requires if before[i] == 0 then u == t else IsData(l, before[i]) && MarkCleared(l, t, u, before[i])
    ensures FreedUpTo(l, s, u, before, blocks[i := 0], keep, i + 1)
  {
    hide Marked;
    forall b: nat | IsData(l, b)
      ensures Within(before, keep, i + 1, b) <==> Within(before, keep, i, b) || (before[i] == b && b != 0)
    {
      if before[i] == b && b != 0 {
        assert keep <= i < i + 1 && before[i] == b;
      }
      if Within(before, keep, i, b) {
        var k :| keep <= k < i && k < |before| && before[k] == b && b != 0;
        assert keep <= k < i + 1 && before[k] == b;
      }
    }
  }

  // ---- counting free blocks ----

  ghost function Free(l: Layout, s: Store): set<nat>
    requires Fitting(l, s)
  {
    set b: nat | l.dataStart <= b < l.totalBlocks && !Marked(l, s, b)
  }

  /** The blocks a write of size bytes at offset touches and the file does not have yet. */
  ghost function Lacking(blocks: seq<u64>, offset: nat, size: nat): set<nat> {
    set k: nat | k < |blocks| && blocks[k] == 0 && Touches(offset, size, k)
  }

  predicate Touches(offset: nat, size: nat, k: nat) {
    size > 0 && offset / 4096 <= k <= (offset + size - 1) / 4096
  }

  /** A claim takes one block from the free ones and gives it to one that lacked it. */
  lemma ClaimCounts(l: Layout, t: Store, u: Store, blocks: seq<u64>, k: nat, b: u64, offset: nat, size: nat)
    requires Fitting(l, t) && IsData(l, b) && !Marked(l, t, b) && u == WithMark(l, t, b, true) && b != 0
    requires k < |blocks| && blocks[k] == 0 && Touches(offset, size, k)
    ensures |Free(l, u)| == |Free(l, t)| - 1
    ensures |Lacking(blocks[k := b], offset, size)| == |Lacking(blocks, offset, size)| - 1
  {
    hide Marked, WithMark, Touches;
    forall c: nat | IsData(l, c) ensures Marked(l, u, c) <==> Marked(l, t, c) || c == b {
      WithMarkAt(l, t, b, true, c);
    }
    assert Free(l, u) == Free(l, t) - {b as nat};
    assert Lacking(blocks[k := b], offset, size) == Lacking(blocks, offset, size) - {k};
  }

  /** Every block the inode has gained lies before every block that is still free. */
  ghost predicate LowestTaken(l: Layout, t: Store, before: seq<u64>, blocks: seq<u64>)
    requires Fitting(l, t) && |before| == |blocks|
  {
    forall k, b :: 0 <= k < |blocks| && blocks[k] != before[k] && b in Free(l, t) ==> blocks[k] < b
  }

  lemma ClaimLowest(l: Layout, t: Store, u: Store, before: seq<u64>, blocks: seq<u64>, k: nat, b: u64)
    requires Fitting(l, t) && IsData(l, b) && u == WithMark(l, t, b, true) && k < |blocks| == |before|
    requires forall c :: l.dataStart <= c < b ==> Marked(l, t, c)
    requires LowestTaken(l, t, before, blocks)
    ensures LowestTaken(l, u, before, blocks[k := b])
  {
    hide Marked, WithMark;
    forall c: nat | IsData(l, c) ensures Marked(l, u, c) <==> Marked(l, t, c) || c == b {
      WithMarkAt(l, t, b, true, c);
    }
    forall c | c in Free(l, u) ensures c in Free(l, t) && b < c {
    }
  }

  lemma SameFree(l: Layout, s: Store, t: Store)
    requires Fitting(l, s) && Fitting(l, t) && s[l.blockBitmap] == t[l.blockBitmap]
    ensures Free(l, s) == Free(l, t)
  {
    hide Marked;
    SameMarks(l, s, t);
  }

  lemma NoneFree(l: Layout, s: Store)
    requires Fitting(l, s) && forall b: nat :: IsData(l, b) ==> Marked(l, s, b)
    ensures Free(l, s) == {}
  {
    hide Marked;
  }

  lemma OneLacking(blocks: seq<u64>, offset: nat, size: nat, done: nat)
    requires |blocks| == NDIR && done < size && offset + size <= CAP && blocks[(offset + done) / 4096] == 0
    ensures |Lacking(blocks, offset, size)| > 0
  {
    TouchesChunk(offset, size, done);
    assert (offset + done) / 4096 in Lacking(blocks, offset, size);
  }

  lemma TouchesChunk(offset: nat, size: nat, done: nat)
    requires done < size
    ensures Touches(offset, size, (offset + done) / 4096)
  {}

  /** A written range lacks nothing. */
  lemma NothingLacking(s: Store, t: Store, before: seq<u64>, blocks: seq<u64>, offset: nat, data: seq<byte>)
    requires InStore(s, before) && InStore(t, blocks) && offset + |data| <= CAP
    requires WrittenSoFar(s, t, before, blocks, offset, data, |data|)
    ensures Lacking(blocks, offset, |data|) == {}
  {
    hide ByteAt;
    forall k: nat | k < NDIR && Touches(offset, |data|, k) ensures blocks[k] != 0 {
      var q := if k == offset / 4096 then offset else 4096 * k;
      assert offset <= q < offset + |data| && q / 4096 == k;
    }
  }

  /** Blocks the range does not touch: none is taken, and every byte of them reads as before. */
  ghost predicate Untouched(s: Store, t: Store, before: seq<u64>, blocks: seq<u64>, offset: nat, size: nat)
    requires InStore(s, before) && InStore(t, blocks)
  {
    && (forall k: nat :: k < NDIR && !Touches(offset, size, k) ==> blocks[k] == before[k])
    && (forall q: nat :: q < CAP && !Touches(offset, size, q / 4096) ==> ByteAt(t, blocks, q) == ByteAt(s, before, q))
  }

  lemma UntouchedBlocks(s: Store, t: Store, before: seq<u64>, blocks: seq<u64>, offset: nat, data: seq<byte>)
    requires InStore(s, before) && InStore(t, blocks) && offset + |data| <= CAP
    requires forall k :: 0 <= k < NDIR && !Touches(offset, |data|, k) ==> blocks[k] == before[k]
    requires WrittenSoFar(s, t, before, blocks, offset, data, |data|)
    ensures Untouched(s, t, before, blocks, offset, |data|)
  {
    hide Touches;
    forall q: nat | q < CAP && !Touches(offset, |data|, q / 4096)
      ensures ByteAt(t, blocks, q) == ByteAt(s, before, q)
    {
      if offset <= q < offset + |data| {
        TouchesChunk(offset, |data|, q - offset);
        assert false;
      }
    }
  }

  /**
   A write from store s on has come to store t with done bytes written: the blocks the inode
   holds, what they read as, which free blocks are gone and how many are still lacking.
   */
  ghost predicate Progress(l: Layout, s: Store, t: Store, before: seq<u64>, blocks: seq<u64>, offset: nat,
                           data: seq<byte>, done: nat)
    requires done <= |data| && offset + |data| <= CAP
  {
    && Working(l, s, t, before, blocks) && InStore(s, before) && InStore(t, blocks)
    && (forall m :: 0 <= m < NDIR && before[m] != 0 ==> blocks[m] == before[m])
    && (forall m :: 0 <= m < NDIR && !Touches(offset, |data|, m) ==> blocks[m] == before[m])
    && WrittenSoFar(s, t, before, blocks, offset, data, done)
    && LowestTaken(l, t, before, blocks)
    && |Free(l, t)| - |Lacking(blocks, offset, |data|)| == |Free(l, s)| - |Lacking(before, offset, |data|)|
  }

  lemma NoProgress(l: Layout, s: Store, before: seq<u64>, offset: nat, data: seq<byte>)
    requires Working(l, s, s, before, before) && InStore(s, before) && offset + |data| <= CAP
    ensures Progress(l, s, s, before, before, offset, data, 0)
  {
    hide Working, Free, Lacking, ByteAt, Marked;
    WorkingFits(l, s, s, before, before);
  }

  lemma WorkingFits(l: Layout, s: Store, t: Store, before: seq<u64>, blocks: seq<u64>)
    requires Working(l, s, t, before, blocks)
    ensures Fitting(l, s) && Fitting(l, t) && |blocks| == NDIR
    ensures forall i, j :: 0 <= i < j < NDIR && blocks[i] != 0 ==> blocks[i] != blocks[j]
    ensures InStore(t, blocks)
  {
    hide Marked;
  }

  lemma ProgressParts(l: Layout, s: Store, t: Store, before: seq<u64>, blocks: seq<u64>, offset: nat, data: seq<byte>,
                      done: nat)
    requires done <= |data| && offset + |data| <= CAP && Progress(l, s, t, before, blocks, offset, data, done)
    ensures Working(l, s, t, before, blocks) && InStore(s, before) && InStore(t, blocks)
    ensures forall m :: 0 <= m < NDIR && before[m] != 0 ==> blocks[m] == before[m]
  {
    hide Working, Free, Lacking, WrittenSoFar, LowestTaken;
  }

  /** What a claim leaves of the progress: everything. */
  lemma ClaimProgress(l: Layout, s: Store, t: Store, u: Store, before: seq<u64>, was: seq<u64>, blocks: seq<u64>,
                      offset: nat, data: seq<byte>, done: nat)
    requires done < |data| && offset + |data| <= CAP && Progress(l, s, t, before, was, offset, data, done)
    requires var b := (offset + done) / 4096;
             && Working(l, s, u, before, blocks) && blocks[b] != 0
             && if was[b] != 0 then u == t && blocks == was
                else && blocks == was[b := blocks[b]] && IsData(l, blocks[b]) && !Marked(l, t, blocks[b])
                     && u == WithMark(l, t, blocks[b], true)
                     && (forall c :: l.dataStart <= c < blocks[b] ==> Marked(l, t, c))
    ensures Progress(l, s, u, before, blocks, offset, data, done)
  {
    hide Marked, WithMark, Working, WrittenSoFar, Free, Lacking, LowestTaken, Touches, ByteAt;
    var b := (offset + done) / 4096;
    WorkingFits(l, s, t, before, was);
    WorkingFits(l, s, u, before, blocks);
    TouchesChunk(offset, |data|, done);
    if was[b] == 0 {
      MarkElsewhere(l, t, blocks[b], true);
      HeldSame(l, s, t, u, before, was);
      ClaimKeeps(l, s, t, u, before, was, blocks, b, offset, data, done);
      ClaimCounts(l, t, u, was, b, blocks[b], offset, |data|);
      ClaimLowest(l, t, u, before, was, b, blocks[b]);
    }
  }

  lemma HeldSame(l: Layout, s: Store, t: Store, u: Store, before: seq<u64>, blocks: seq<u64>)
    requires Working(l, s, t, before, blocks) && |u| == |t|
    requires forall c :: 0 <= c < |t| && c != l.blockBitmap ==> u[c] == t[c]
    ensures forall m :: 0 <= m < NDIR && blocks[m] != 0 ==> blocks[m] < |t| && u[blocks[m]] == t[blocks[m]]
  {
    hide Marked;
  }

  /** One chunk more. */
  lemma FillProgress(l: Layout, s: Store, t: Store, before: seq<u64>, blocks: seq<u64>, offset: nat, data: seq<byte>,
                     done: nat, chunk: nat)
    requires done + chunk <= |data| && offset + |data| <= CAP && chunk > 0
    requires Progress(l, s, t, before, blocks, offset, data, done)
    requires (offset + done) % 4096 + chunk <= 4096 && blocks[(offset + done) / 4096] != 0
    ensures var b, at := (offset + done) / 4096, (offset + done) % 4096;
            && blocks[b] < |t|
            && Progress(l, s, t[blocks[b] := Patch(t[blocks[b]], at, data[done..done + chunk])], before, blocks,
                        offset, data, done + chunk)
  {
    hide Marked, Working, WrittenSoFar, Free, Lacking, Touches, ByteAt, Patch;
    var b, at := (offset + done) / 4096, (offset + done) % 4096;
    WorkingFits(l, s, t, before, blocks);
    var content := Patch(t[blocks[b]], at, data[done..done + chunk]);
    FillBlock(l, s, t, before, blocks, b, content);
    ChunkWritten(s, t, before, blocks, offset, data, done, chunk);
    HeldData(l, s, t, before, blocks, b);
    SameFree(l, t, t[blocks[b] := content]);
  }

  /** The claim failed: the file lacks more blocks than were free. */
  lemma NoRoom(l: Layout, s: Store, t: Store, before: seq<u64>, blocks: seq<u64>, offset: nat, data: seq<byte>,
               done: nat)
    requires done < |data| && offset + |data| <= CAP && Progress(l, s, t, before, blocks, offset, data, done)
    requires Free(l, t) == {} && blocks[(offset + done) / 4096] == 0
    ensures |Lacking(before, offset, |data|)| > |Free(l, s)| && StoppedAfter(s, t, before, offset, data, done)
  {
    hide Working, WrittenSoFar, Free, Lacking, Touches, ByteAt, LowestTaken;
    OneLacking(blocks, offset, |data|, done);
    Stopped(s, t, before, blocks, offset, data, done);
  }

  lemma AllWritten(l: Layout, s: Store, t: Store, before: seq<u64>, blocks: seq<u64>, offset: nat, data: seq<byte>)
    requires offset + |data| <= CAP && Progress(l, s, t, before, blocks, offset, data, |data|)
    ensures Working(l, s, t, before, blocks) && InStore(t, blocks)
    ensures forall m :: 0 <= m < NDIR && before[m] != 0 ==> blocks[m] == before[m]
    ensures Fitting(l, s) && Fitting(l, t)
    ensures |Free(l, t)| == |Free(l, s)| - |Lacking(before, offset, |data|)|
  {
    hide Working, WrittenSoFar, Free, Lacking, LowestTaken;
    NothingLacking(s, t, before, blocks, offset, data);
    WorkingFits(l, s, t, before, blocks);
  }

  class FileSystem {
    const l: Layout
    var store: Store

    ghost predicate Valid()
      reads this
    {
      Fitting(l, store)
    }

    constructor (l: Layout, image: Store)
      requires Fitting(l, image)
      ensures Valid() && this.l == l && store == image
    {
      this.l, store := l, image;
    }

    // ---- allocation ----

    /** The lowest clear bit of [lo, hi) in a bitmap block, set. */
    method SetLowest(bitmapBlock: nat, lo: nat, hi: nat) returns (ok: bool, i: nat)
      requires bitmapBlock < |store| && lo <= hi <= 8 * 4096
      modifies this
      ensures ok ==> lo <= i < hi && !Bit(old(store)[bitmapBlock], i)
      ensures ok ==> forall j :: lo <= j < i ==> Bit(old(store)[bitmapBlock], j)
      ensures ok ==> store == old(store)[bitmapBlock := WithBit(old(store)[bitmapBlock], i, true)]
      ensures !ok ==> store == old(store) && forall j :: lo <= j < hi ==> Bit(store[bitmapBlock], j)
    {
      hide Bit, WithBit;
      i := lo;
      while i < hi
        invariant lo <= i <= hi && store == old(store)
        invariant forall j :: lo <= j < i ==> Bit(store[bitmapBlock], j)
      {
        if !Bit(store[bitmapBlock], i) {
          store := store[bitmapBlock := WithBit(store[bitmapBlock], i, true)];
          return true, i;
        }
        i := i + 1;
      }
      ok := false;
    }

    /** The lowest free data block, now marked. */
    method AllocBlock() returns (ok: bool, b: nat)
      requires Valid()
      modifies this
      ensures Valid()
      ensures ok ==> IsData(l, b) && !Marked(l, old(store), b) && store == WithMark(l, old(store), b, true)
      ensures ok ==> forall c :: l.dataStart <= c < b ==> Marked(l, old(store), c)
      ensures !ok ==> store == old(store) && forall c :: IsData(l, c) ==> Marked(l, store, c)
    {
      hide Bit, WithBit;
      var i;
      ok, i := SetLowest(l.blockBitmap, 0, l.totalBlocks - l.dataStart);
      b := l.dataStart + i;
    }

    /** Numbers in use start at 1: bit 0 is never given out. */
    method AllocInode() returns (ok: bool, ino: nat)
      requires Valid()
      modifies this
      ensures Valid()
      ensures ok ==> IsInode(l, ino) && !Bit(old(store)[l.inodeBitmap], ino)
      ensures ok ==> store == old(store)[l.inodeBitmap := WithBit(old(store)[l.inodeBitmap], ino, true)]
      ensures ok ==> forall j :: 0 < j < ino ==> Bit(old(store)[l.inodeBitmap], j)
      ensures !ok ==> store == old(store) && forall j :: IsInode(l, j) ==> Bit(store[l.inodeBitmap], j)
    {
      hide Bit, WithBit;
      ok, ino := SetLowest(l.inodeBitmap, 1, l.totalInodes + 1);
    }

    method FreeInode(ino: nat) returns (ok: bool)
      requires Valid()
      modifies this
      ensures Valid() && (ok <==> IsInode(l, ino))
      ensures ok ==> forall j: nat :: j < 8 * 4096 ==>
        (Bit(store[l.inodeBitmap], j) <==> Bit(old(store)[l.inodeBitmap], j) && j != ino)
      ensures ok ==> forall k :: 0 <= k < |store| && k != l.inodeBitmap ==> store[k] == old(store)[k]
      ensures !ok ==> store == old(store)
    {
      hide Bit, WithBit;
      ok := IsInode(l, ino);
      if ok {
        forall j: nat | j < 8 * 4096
          ensures Bit(WithBit(store[l.inodeBitmap], ino, false), j) <==> Bit(store[l.inodeBitmap], j) && j != ino
        {
          WithBitAt(store[l.inodeBitmap], ino, false, j);
        }
        store := store[l.inodeBitmap := WithBit(store[l.inodeBitmap], ino, false)];
      }
    }

    method FreeBlock(b: nat) returns (ok: bool)
      requires Valid()
      modifies this
      ensures Valid() && (ok <==> IsData(l, b))
      ensures ok ==> MarkCleared(l, old(store), store, b)
      ensures !ok ==> store == old(store)
    {
      ok := IsData(l, b);
      if ok {
        ClearMark(l, store, b);
        store := WithMark(l, store, b, false);
      }
    }

    // ---- files ----

    /** Reads up to size bytes from offset on, as far as the file goes. */
    method Read(ino: nat, size: nat, offset: nat) returns (status: Status, data: seq<byte>)
      requires Valid()
      requires IsInode(l, ino) ==> InStore(store, InodeAt(l, store, ino).blocks) && InodeAt(l, store, ino).size <= CAP
      ensures status == if IsInode(l, ino) then Ok else NoSuchInode
      ensures status == Ok ==>
        (var i := InodeAt(l, store, ino);
         && |data| == (if offset >= i.size then 0 else if offset + size > i.size then i.size - offset else size)
         && forall k :: 0 <= k < |data| ==> offset + k < CAP && data[k] == ByteAt(store, i.blocks, offset + k))
    {
      hide InodeAt;
      data := [];
      if !IsInode(l, ino) {
        return NoSuchInode, data;
      }
      status := Ok;
      var i := InodeAt(l, store, ino);
      if offset >= i.size {
        return;
      }
      var total := if offset + size > i.size then i.size - offset else size;
      while |data| < total
        invariant |data| <= total
        invariant forall k :: 0 <= k < |data| ==> data[k] == ByteAt(store, i.blocks, offset + k)
        decreases total - |data|
      {
        var pos := offset + |data|;
        var b, inBlock := pos / 4096, pos % 4096;
        var chunk := if 4096 - inBlock > total - |data| then total - |data| else 4096 - inBlock;
        ChunkBytes(store, i.blocks, pos, chunk);
        data := data + if i.blocks[b] == 0 then seq(chunk, _ => 0) else store[i.blocks[b]][inBlock..inBlock + chunk];
      }
    }

    // ---- files, written ----

    /** Block k of the file, allocated if it has none. */
    method Claim(ghost s: Store, ghost before: seq<u64>, blocks: seq<u64>, k: nat) returns (ok: bool, held: seq<u64>)
      requires k < NDIR && Working(l, s, store, before, blocks)
      requires InStore(s, before) && forall m :: 0 <= m < NDIR && before[m] != 0 ==> blocks[m] == before[m]
      modifies this
      ensures Working(l, s, store, before, held)
      ensures ok ==>
        held[k] != 0 && (blocks[k] != 0 ==> held == blocks) && (blocks[k] == 0 ==> held == blocks[k := held[k]])
      ensures ok && blocks[k] == 0 ==> IsData(l, held[k]) && !Marked(l, old(store), held[k])
      ensures ok && blocks[k] == 0 ==> store == WithMark(l, old(store), held[k], true)
      ensures ok && blocks[k] == 0 ==> forall c :: l.dataStart <= c < held[k] ==> Marked(l, old(store), c)
      ensures blocks[k] != 0 ==> ok && store == old(store)
      ensures !ok ==> store == old(store) && held == blocks && forall c: nat :: IsData(l, c) ==> Marked(l, store, c)
      ensures forall b: nat :: IsData(l, b) ==> store[b] == old(store)[b]
    {
      hide Marked, WithMark, InodeAt;
      held := blocks;
      if blocks[k] != 0 {
        return true, held;
      }
      var b;
      ok, b := AllocBlock();
      if ok {
        HeldMarked(l, s, old(store), before, blocks, b);
        TakeBlock(l, s, old(store), before, blocks, k, b);
        MarkElsewhere(l, old(store), b, true);
        held := blocks[k := b];
      }
    }

    /**
     Writes data at offset. All of it stands in the file afterwards and no other byte of an
     allocated block changes. Fails for space if and only if fewer blocks are free than the
     range lacks; the inode then stays as it was. Either way no other inode loses a block or
     a byte.
     */
    method WriteAt(ino: nat, data: seq<byte>, offset: nat, now: u64, ghost live: set<nat>) returns (status: Status)
      requires Valid() && Owned(l, store, live) && (IsInode(l, ino) ==> ino in live)
      modifies this
      ensures Valid() && Owned(l, store, live)
      ensures status in {Ok, TooBig, NoSuchInode, NoSpace}
      ensures status == TooBig <==> offset + |data| > CAP
      ensures status == NoSuchInode <==> offset + |data| <= CAP && !IsInode(l, ino)
      ensures status in {TooBig, NoSuchInode} ==> store == old(store)
      ensures status == NoSpace <==>
        (offset + |data| <= CAP && IsInode(l, ino)
         && |Lacking(InodeAt(l, old(store), ino).blocks, offset, |data|)| > |Free(l, old(store))|)
      ensures status in {Ok, NoSpace} ==>
              IsInode(l, ino) && OneInode(l, old(store), store, ino, InodeAt(l, store, ino).blocks)
      ensures status == NoSpace ==> InodeAt(l, store, ino) == InodeAt(l, old(store), ino)
      ensures status == NoSpace ==> exists done: nat ::
        StoppedAfter(old(store), store, InodeAt(l, old(store), ino).blocks, offset, data, done)
      ensures status == NoSpace ==> Free(l, store) == {} && forall b: nat ::
        (Leaked(l, store, live, b) <==> b in Free(l, old(store)) || Leaked(l, old(store), live, b))
      ensures status == Ok ==>
        (var i, j := InodeAt(l, old(store), ino), InodeAt(l, store, ino);
         && j == i.(blocks := j.blocks, mtime := now,
                    size := if offset + |data| > i.size then offset + |data| else i.size)
         && InStore(old(store), i.blocks) && InStore(store, j.blocks)
         && WrittenSoFar(old(store), store, i.blocks, j.blocks, offset, data, |data|)
         && Untouched(old(store), store, i.blocks, j.blocks, offset, |data|)
         && OwnChange(l, old(store), store, i.blocks, j.blocks)
         && |Free(l, store)| == |Free(l, old(store))| - |Lacking(i.blocks, offset, |data|)|
         && LowestTaken(l, store, i.blocks, j.blocks))
    {
      hide InodeAt, Marked, Patch, ByteAt, WithInode, WrittenSoFar, Free, Lacking;
      if offset + |data| > CAP {
        return TooBig;
      }
      if !IsInode(l, ino) {
        return NoSuchInode;
      }
      var i := InodeAt(l, store, ino);
      BlocksInStore(l, store, i.blocks);
      NothingWritten(store, i.blocks, offset, data);
      NothingDone(l, store, i.blocks);
      var ok, blocks := WriteChunks(store, i.blocks, data, offset);
      if !ok {
        Abandon(l, old(store), store, live, ino, blocks);
        FreeLeaks(l, old(store), store, live, ino);
        StillLeaked(l, old(store), store, live, ino);
        return NoSpace;
      }
      var size := if offset + |data| > i.size then offset + |data| else i.size;
      ghost var t := store;
      var j := i.(blocks := blocks, size := size, mtime := now);
      store := WithInode(l, store, ino, j);
      Finish(l, old(store), t, live, ino, j);
      BytesElsewhere(l, t, store, blocks);
      SameBytes(old(store), t, store, i.blocks, blocks, offset, data);
      UntouchedBlocks(old(store), store, i.blocks, blocks, offset, data);
      SameFree(l, t, store);
      assert LowestTaken(l, store, i.blocks, blocks);
      status := Ok;
    }

    /** The loop over chunks. */
    method WriteChunks(ghost s: Store, before: seq<u64>, data: seq<byte>, offset: nat)
      returns (ok: bool, blocks: seq<u64>)
      requires offset + |data| <= CAP && s == store && Working(l, s, s, before, before) && InStore(s, before)
      modifies this
      ensures Working(l, s, store, before, blocks) && InStore(store, blocks)
      ensures forall m :: 0 <= m < NDIR && before[m] != 0 ==> blocks[m] == before[m]
      ensures ok ==> Progress(l, s, store, before, blocks, offset, data, |data|)
      ensures ok <==> |Lacking(before, offset, |data|)| <= |Free(l, s)|
      ensures ok ==> |Free(l, store)| == |Free(l, s)| - |Lacking(before, offset, |data|)|
      ensures !ok ==> Free(l, store) == {} && exists done: nat :: StoppedAfter(s, store, before, offset, data, done)
    {
      hide InodeAt, Marked, Patch, ByteAt, WithMark, Free, Lacking, Progress, Working;
      blocks := before;
      var done := 0;
      NoProgress(l, s, before, offset, data);
      while done < |data|
        invariant done <= |data| && Progress(l, s, store, before, blocks, offset, data, done)
        decreases |data| - done
      {
        var pos := offset + done;
        var b, inBlock := pos / 4096, pos % 4096;
        var chunk := if 4096 - inBlock > |data| - done then |data| - done else 4096 - inBlock;
        ghost var t, was := store, blocks;
        ProgressParts(l, s, store, before, blocks, offset, data, done);
        ok, blocks := Claim(s, before, blocks, b);
        if !ok {
          WorkingFits(l, s, store, before, was);
          NoneFree(l, store);
          NoRoom(l, s, store, before, was, offset, data, done);
          return;
        }
        ClaimProgress(l, s, t, store, before, was, blocks, offset, data, done);
        FillProgress(l, s, store, before, blocks, offset, data, done, chunk);
        store := store[blocks[b] := Patch(store[blocks[b]], inBlock, data[done..done + chunk])];
        done := done + chunk;
      }
      AllWritten(l, s, store, before, blocks, offset, data);
      ok := true;
    }

    // ---- truncation ----

    /** Frees every block from index keep on. */
    method FreeTail(ghost s: Store, before: seq<u64>, keep: nat) returns (blocks: seq<u64>)
      requires keep <= NDIR && s == store && Fitting(l, s) && BlocksOk(l, s, before)
      modifies this
      ensures Working(l, s, store, before, blocks) && FreedUpTo(l, s, store, before, blocks, keep, NDIR)
    {
      hide InodeAt, Marked, WithMark;
      blocks := before;
      NothingDone(l, s, before);
      for i := keep to NDIR
        invariant Working(l, s, store, before, blocks) && FreedUpTo(l, s, store, before, blocks, keep, i)
      {
        ghost var t, was := store, blocks;
        if blocks[i] != 0 {
          HeldData(l, s, store, before, blocks, i);
          var ok := FreeBlock(blocks[i]);
          DropBlock(l, s, t, store, before, blocks, i);
          blocks := blocks[i := 0];
        }
        FreeOne(l, s, t, store, before, was, keep, i);
        assert blocks == was[i := 0];
      }
    }

    /**
     Sets the size. A smaller one frees exactly the blocks wholly behind it; no block's
     content changes, and no other inode loses anything.
     */
    method Truncate(ino: nat, size: nat, now: u64, ghost live: set<nat>) returns (status: Status)
      requires Valid() && Owned(l, store, live) && (IsInode(l, ino) ==> ino in live)
      modifies this
      ensures Valid() && Owned(l, store, live)
      ensures status == if size > CAP then TooBig else if IsInode(l, ino) then Ok else NoSuchInode
      ensures status != Ok ==> store == old(store)
      ensures status == Ok ==>
        (var i, j := InodeAt(l, old(store), ino), InodeAt(l, store, ino);
         var keep := if size < i.size then (size + 4095) / 4096 else NDIR;
         && j == i.(blocks := j.blocks, size := size, mtime := now)
         && FreedUpTo(l, old(store), store, i.blocks, j.blocks, keep, NDIR)
         && OneInode(l, old(store), store, ino, j.blocks))
    {
      hide InodeAt, Marked, WithInode;
      if size > CAP {
        return TooBig;
      }
      if !IsInode(l, ino) {
        return NoSuchInode;
      }
      var i := InodeAt(l, store, ino);
      var keep := if size < i.size then (size + 4095) / 4096 else NDIR;
      var blocks := FreeTail(store, i.blocks, keep);
      ghost var t := store;
      var j := i.(blocks := blocks, size := size, mtime := now);
      store := WithInode(l, store, ino, j);
      Finish(l, old(store), t, live, ino, j);
      SameMarks(l, t, store);
      status := Ok;
    }
  }

  lemma BytesElsewhere(l: Layout, t: Store, u: Store, blocks: seq<u64>)
    requires Fitting(l, t) && Fitting(l, u) && BlocksOk(l, t, blocks)
    requires forall b :: 0 <= b < |t| && !(l.inodeTable <= b < l.dataStart) ==> u[b] == t[b]
    ensures InStore(t, blocks) && InStore(u, blocks)
    ensures forall k :: 0 <= k < NDIR && blocks[k] != 0 ==> u[blocks[k]] == t[blocks[k]]
  {
    hide Marked;
  }

  lemma SameBytes(s: Store, t: Store, u: Store, before: seq<u64>, blocks: seq<u64>, offset: nat, data: seq<byte>)
    requires InStore(s, before) && InStore(t, blocks) && InStore(u, blocks) && offset + |data| <= CAP
    requires forall k :: 0 <= k < NDIR && blocks[k] != 0 ==> u[blocks[k]] == t[blocks[k]]
    requires WrittenSoFar(s, t, before, blocks, offset, data, |data|)
    ensures WrittenSoFar(s, u, before, blocks, offset, data, |data|)
  {
    forall q | 0 <= q < CAP ensures ByteAt(u, blocks, q) == ByteAt(t, blocks, q) {
    }
  }

  /** The bytes of one block from position pos on. */
  lemma ChunkBytes(s: Store, blocks: seq<u64>, pos: nat, chunk: nat)
    requires InStore(s, blocks) && pos + chunk <= CAP && pos % 4096 + chunk <= 4096 && chunk > 0
    ensures forall q :: pos <= q < pos + chunk ==>
              (ByteAt(s, blocks, q)
               == if blocks[pos / 4096] == 0 then 0 else s[blocks[pos / 4096]][q - pos + pos % 4096])
  {
    forall q | pos <= q < pos + chunk
      ensures ByteAt(s, blocks, q) == if blocks[pos / 4096] == 0 then 0 else s[blocks[pos / 4096]][q - pos + pos % 4096]
    {
      SameBlock(pos, q);
    }
  }

  lemma SameBlock(pos: nat, q: nat)
    requires pos <= q && pos % 4096 + (q - pos) < 4096
    ensures q / 4096 == pos / 4096 && q % 4096 == q - pos + pos % 4096
  {}
}
