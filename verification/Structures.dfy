/** Bitmaps, inodes and directory entries: the structures on top, as bytes inside blocks. */
module Structures {
  import opened Bytes
  import opened DiskFormat

  /** Direct blocks per inode; there are no indirect ones. */
  const NDIR: nat := 12

  /** An inode is 144 bytes, so 28 fit in a block. */
  const INODE_SIZE: nat := 144
  const PER_BLOCK: nat := 28

  /** A directory entry is 64 bytes, so 64 fit in a block. */
  const DIRENT_SIZE: nat := 64
  const DIRENTS: nat := 64
  const NAME_MAX: nat := 55

  type u32 = n: int | 0 <= n < 0x1_0000_0000

  // ---- part of a block ----

  /** Block b with the bytes s copied over it from position at on. */
  function Patch(b: Block, at: nat, s: seq<byte>): (r: Block)
    requires at + |s| <= 4096
  {
    b[..at] + s + b[at + |s|..]
  }

  lemma PatchRead(b: Block, at: nat, s: seq<byte>, from: nat, to: nat)
    requires at + |s| <= 4096 && from <= to <= 4096
    ensures from == at && to == at + |s| ==> Patch(b, at, s)[from..to] == s
    ensures to <= at || at + |s| <= from ==> Patch(b, at, s)[from..to] == b[from..to]
  {}

  // ---- bitmaps ----

  predicate Bit(b: Block, i: nat)
    requires i < 8 * 4096
  {
    ByteBits(b[i / 8])[i % 8]
  }

  /** Bit i set or cleared. */
  function WithBit(b: Block, i: nat, v: bool): (r: Block)
    requires i < 8 * 4096
  {
    b[i / 8 := BitsByte(ByteBits(b[i / 8])[i % 8 := v])]
  }

  /** Bit i of a bitmap is bit i % 8, by weight, of byte i / 8. */
  lemma {:induction false} BitWeight(b: Block, i: nat)
    requires i < 8 * 4096
    ensures Bit(b, i) <==> b[i / 8] / Power(2, i % 8) % 2 == 1
  {
    BitPlace(b[i / 8], 8, i % 8);
  }

  lemma WithBitAt(b: Block, i: nat, v: bool, j: nat)
    requires i < 8 * 4096 && j < 8 * 4096
    ensures Bit(WithBit(b, i, v), j) == if j == i then v else Bit(b, j)
  {
    ByteBitsRoundTrip(0, ByteBits(b[i / 8])[i % 8 := v]);
  }

  // ---- inodes ----

  datatype Inode = Inode(
    mode: u32, nlink: u32, uid: u32, gid: u32, size: u64,
    atime: u64, mtime: u64, ctime: u64, blocks: seq<u64>)

  predicate IsDir(i: Inode) {
    i.mode / 0x1000 % 16 == 4
  }

  function InodeHead(i: Inode): (s: seq<byte>)
    ensures |s| == 48
  {
    Le(i.mode, 4) + Le(i.nlink, 4) + Le(i.uid, 4) + Le(i.gid, 4)
    + Le(i.size, 8) + Le(i.atime, 8) + Le(i.mtime, 8) + Le(i.ctime, 8)
  }

  function EncodeInode(i: Inode): (s: seq<byte>)
    requires |i.blocks| == NDIR
    ensures |s| == INODE_SIZE
  {
    InodeHead(i) + EntryBytes(i.blocks)
  }

  function Field32(s: seq<byte>, at: nat): u32
    requires at + 4 <= |s|
  {
    FieldBounds(s[at..at + 4]);
    UnLe(s[at..at + 4])
  }

  function Field64(s: seq<byte>, at: nat): u64
    requires at + 8 <= |s|
  {
    FieldBounds(s[at..at + 8]);
    UnLe(s[at..at + 8])
  }

  function DecodeInode(s: seq<byte>): (i: Inode)
    requires |s| == INODE_SIZE
    ensures |i.blocks| == NDIR
  {
    Inode(Field32(s, 0), Field32(s, 4), Field32(s, 8), Field32(s, 12),
          Field64(s, 16), Field64(s, 24), Field64(s, 32), Field64(s, 40),
          seq(NDIR, k requires 0 <= k < NDIR => Field64(s, 48 + 8 * k)))
  }

  lemma Middle(before: seq<byte>, field: seq<byte>, after: seq<byte>)
    ensures (before + field + after)[|before|..|before| + |field|] == field
  {}

  lemma InodeHeadReads(i: Inode, rest: seq<byte>)
    ensures var s := InodeHead(i) + rest;
            && Field32(s, 0) == i.mode && Field32(s, 4) == i.nlink && Field32(s, 8) == i.uid && Field32(s, 12) == i.gid
            && Field64(s, 16) == i.size && Field64(s, 24) == i.atime && Field64(s, 32) == i.mtime
            && Field64(s, 40) == i.ctime
  {
    hide Le, UnLe;
    var s := InodeHead(i) + rest;
    var a, b, c, d := Le(i.mode, 4), Le(i.nlink, 4), Le(i.uid, 4), Le(i.gid, 4);
    var e, f, g, h := Le(i.size, 8), Le(i.atime, 8), Le(i.mtime, 8), Le(i.ctime, 8);
    assert s[0..4] == a && s[4..8] == b && s[8..12] == c && s[12..16] == d;
    assert s[16..24] == e && s[24..32] == f && s[32..40] == g && s[40..48] == h;
    LeFields(i.mode);
    LeFields(i.nlink);
    LeFields(i.uid);
    LeFields(i.gid);
    LeFields(i.size);
    LeFields(i.atime);
    LeFields(i.mtime);
    LeFields(i.ctime);
  }

  lemma InodeBlocksRead(i: Inode, k: nat)
    requires |i.blocks| == NDIR && k < NDIR
    ensures Field64(EncodeInode(i), 48 + 8 * k) == i.blocks[k]
  {
    hide Le, UnLe, InodeHead;
    EntryBytesSplit(i.blocks, k);
    var before, after := InodeHead(i) + EntryBytes(i.blocks[..k]), EntryBytes(i.blocks[k + 1..]);
    assert EncodeInode(i) == before + Le(i.blocks[k], 8) + after;
    Middle(before, Le(i.blocks[k], 8), after);
    LeFields(i.blocks[k]);
  }

  /** An inode written to the table is the inode read back. */
  lemma InodeRoundTrip(i: Inode)
    requires |i.blocks| == NDIR
    ensures DecodeInode(EncodeInode(i)) == i
  {
    hide Le, UnLe, InodeHead, Field32, Field64;
    var s := EncodeInode(i);
    InodeHeadReads(i, EntryBytes(i.blocks));
    forall k | 0 <= k < NDIR ensures DecodeInode(s).blocks[k] == i.blocks[k] {
      InodeBlocksRead(i, k);
    }
    assert DecodeInode(s).blocks == i.blocks;
  }

  /** Which byte of an inode holds what. */
  lemma InodeLayout(i: Inode)
    requires |i.blocks| == NDIR
    ensures var s := EncodeInode(i);
            && FieldAt(s, 0, 4, i.mode) && FieldAt(s, 4, 4, i.nlink) && FieldAt(s, 8, 4, i.uid)
            && FieldAt(s, 12, 4, i.gid) && FieldAt(s, 16, 8, i.size) && FieldAt(s, 24, 8, i.atime)
            && FieldAt(s, 32, 8, i.mtime) && FieldAt(s, 40, 8, i.ctime)
            && forall k :: 0 <= k < NDIR ==> FieldAt(s, 48 + 8 * k, 8, i.blocks[k])
  {
    hide FieldAt, UnLe, EncodeInode;
    var s := EncodeInode(i);
    InodeRoundTrip(i);
    FieldRead(s, 0, 4);
    FieldRead(s, 4, 4);
    FieldRead(s, 8, 4);
    FieldRead(s, 12, 4);
    FieldRead(s, 16, 8);
    FieldRead(s, 24, 8);
    FieldRead(s, 32, 8);
    FieldRead(s, 40, 8);
    forall k | 0 <= k < NDIR ensures FieldAt(s, 48 + 8 * k, 8, i.blocks[k]) {
      FieldRead(s, 48 + 8 * k, 8);
      assert DecodeInode(s).blocks[k] == Field64(s, 48 + 8 * k);
    }
  }

  // ---- directory entries ----

  type Name = seq<byte>

  datatype Dirent = Dirent(ino: u32, nameLen: byte, fileType: byte, name: seq<byte>)

  function DirentAt(b: Block, e: nat): (d: Dirent)
    requires e < DIRENTS
    ensures |d.name| == 56
  {
    FieldBounds(b[64 * e..64 * e + 4]);
    Dirent(UnLe(b[64 * e..64 * e + 4]), b[64 * e + 4], b[64 * e + 5], b[64 * e + 8..64 * e + 64])
  }

  /** Which byte of a slot holds what. */
  lemma DirentLayout(b: Block, e: nat)
    requires e < DIRENTS
    ensures var d := DirentAt(b, e);
            && FieldAt(b, 64 * e, 4, d.ino) && FieldAt(b, 64 * e + 4, 1, d.nameLen)
            && FieldAt(b, 64 * e + 5, 1, d.fileType)
            && forall k :: 0 <= k < 56 ==> d.name[k] == b[64 * e + 8 + k]
  {
    FieldRead(b, 64 * e, 4);
    assert Power(256, 0) == 1;
  }

  /** The slot is used and carries this name. */
  predicate Carries(d: Dirent, name: Name) {
    d.ino != 0 && d.nameLen == |name| && |name| <= |d.name| && d.name[..|name|] == name
  }

  /** A name's 56 bytes: the name, then zeros. */
  function Padded(name: Name): (s: seq<byte>)
    requires |name| <= NAME_MAX
    ensures |s| == 56 && s[..|name|] == name
  {
    name + seq(56 - |name|, _ => 0)
  }

  /** Slot e filled in: number, length, type and name; the two bytes of padding stay. */
  function WithDirent(b: Block, e: nat, ino: u32, name: Name, fileType: byte): Block
    requires e < DIRENTS && |name| <= NAME_MAX
  {
    Patch(Patch(b, 64 * e, Le(ino, 4) + [|name|] + [fileType]), 64 * e + 8, Padded(name))
  }

  /** Slot e freed: only its number is overwritten. */
  function WithoutDirent(b: Block, e: nat): Block
    requires e < DIRENTS
  {
    Patch(b, 64 * e, Le(0, 4))
  }

  lemma WithDirentAt(b: Block, e: nat, ino: u32, name: Name, fileType: byte, f: nat)
    requires e < DIRENTS && f < DIRENTS && |name| <= NAME_MAX
    ensures DirentAt(WithDirent(b, e, ino, name, fileType), f)
         == if f == e then Dirent(ino, |name|, fileType, Padded(name)) else DirentAt(b, f)
  {
    hide Le, UnLe, Padded, Patch;
    var head := Le(ino, 4) + [|name|] + [fileType];
    var b1 := Patch(b, 64 * e, head);
    var b2 := Patch(b1, 64 * e + 8, Padded(name));
    PatchRead(b, 64 * e, head, 64 * f, 64 * f + 6);
    PatchRead(b1, 64 * e + 8, Padded(name), 64 * f, 64 * f + 6);
    PatchRead(b, 64 * e, head, 64 * f + 8, 64 * f + 64);
    PatchRead(b1, 64 * e + 8, Padded(name), 64 * f + 8, 64 * f + 64);
    var first := if f == e then head else b[64 * f..64 * f + 6];
    assert b2[64 * f..64 * f + 6] == first;
    SixBytes(b2, 64 * f, first);
    SixBytes(b, 64 * f, b[64 * f..64 * f + 6]);
    LeFields(ino);
    assert head[..4] == Le(ino, 4) && head[4] == |name| && head[5] == fileType;
  }

  lemma SixBytes(b: Block, at: nat, s: seq<byte>)
    requires at + 6 <= 4096 && s == b[at..at + 6]
    ensures b[at..at + 4] == s[..4] && b[at + 4] == s[4] && b[at + 5] == s[5]
  {}

  lemma WithoutDirentAt(b: Block, e: nat, f: nat)
    requires e < DIRENTS && f < DIRENTS
    ensures f != e ==> DirentAt(WithoutDirent(b, e), f) == DirentAt(b, f)
    ensures DirentAt(WithoutDirent(b, e), e).ino == 0
  {
    hide Le, UnLe;
    LeFields(0);
    PatchRead(b, 64 * e, Le(0, 4), 64 * f, 64 * f + 4);
    PatchRead(b, 64 * e, Le(0, 4), 64 * f + 4, 64 * f + 64);
    var r := WithoutDirent(b, e);
    if f != e {
      assert r[64 * f + 4..64 * f + 64][0] == r[64 * f + 4] && b[64 * f + 4..64 * f + 64][0] == b[64 * f + 4];
      assert r[64 * f + 4..64 * f + 64][1] == r[64 * f + 5] && b[64 * f + 4..64 * f + 64][1] == b[64 * f + 5];
      assert r[64 * f + 4..64 * f + 64][4..] == r[64 * f + 8..64 * f + 64];
      assert b[64 * f + 4..64 * f + 64][4..] == b[64 * f + 8..64 * f + 64];
    }
    PatchRead(b, 64 * e, Le(0, 4), 64 * e, 64 * e + 4);
  }

  // ---- where an inode lies ----

  /** Block and byte offset of an inode, from the first block of the table. */
  function InodeBlock(table: nat, ino: nat): nat
    requires ino > 0
  {
    table + (ino - 1) / PER_BLOCK
  }

  function InodeOffset(ino: nat): (at: nat)
    requires ino > 0
    ensures at + INODE_SIZE <= 4096
  {
    (ino - 1) % PER_BLOCK * INODE_SIZE
  }

  /** Inodes follow one another from the start of the table on, 28 to a block. */
  lemma InodePlaces(table: nat, ino: nat)
    requires ino > 0
    ensures PER_BLOCK * INODE_SIZE <= BLOCK_SIZE < (PER_BLOCK + 1) * INODE_SIZE
    ensures InodeBlock(table, 1) == table && InodeOffset(1) == 0
    ensures var b, at := InodeBlock(table, ino), InodeOffset(ino);
            if at + 2 * INODE_SIZE <= 4096
            then InodeBlock(table, ino + 1) == b && InodeOffset(ino + 1) == at + INODE_SIZE
            else InodeBlock(table, ino + 1) == b + 1 && InodeOffset(ino + 1) == 0
  {}

  /** Different inodes lie in different bytes. */
  lemma InodesApart(table: nat, i: nat, j: nat)
    requires 0 < i && 0 < j && i != j && InodeBlock(table, i) == InodeBlock(table, j)
    ensures InodeOffset(i) + INODE_SIZE <= InodeOffset(j) || InodeOffset(j) + INODE_SIZE <= InodeOffset(i)
  {}

  /** Every inode lies inside the table if and only if there are at most 28 per table block. */
  lemma TableHolds(table: nat, len: nat, total: nat)
    ensures (forall ino: nat :: 0 < ino <= total ==> InodeBlock(table, ino) < table + len) <==> total <= PER_BLOCK * len
  {
    if total > PER_BLOCK * len {
      assert 0 < total <= total && InodeBlock(table, total) >= table + len;
    }
    forall ino: nat | 0 < ino <= total ensures total <= PER_BLOCK * len ==> InodeBlock(table, ino) < table + len {
    }
  }

  /** Blocks format gives the table: it counts bytes, not whole inodes per block. */
  function TableLength(total: nat): nat {
    (total * INODE_SIZE + 4095) / 4096
  }

  /** With 85 inodes the table format makes is a block too short. */
  lemma TableTooShort()
    ensures PER_BLOCK * TableLength(85) < 85
    ensures forall total: nat :: total < 85 ==> total <= PER_BLOCK * TableLength(total)
  {}
}
