/**
 The journal's on-disk blocks, byte for byte: descriptor, revoke, commit and journal
 superblock, how they are written into a block and how they are read back from one.
 */
module DiskFormat {
  import opened Bytes
  import Crc32

  const BLOCK_SIZE: nat := 4096

  type Block = b: seq<byte> | |b| == 4096 witness seq(4096, _ => 0)

  const JOURNAL_MAGIC: nat := 0x4C4A524E
  const DESC_MAGIC: nat := 0x4C444352
  const COMMIT_MAGIC: nat := 0x4C434D54
  const REVOKE_MAGIC: nat := 0x4C52564B

  /** Block number of the journal superblock. */
  const JSUPER: nat := 2

  /** Tags per descriptor block, and revoked blocks per revoke block. */
  const MAX_TAGS: nat := 510

  /** The `start` of a journal superblock that says the log is empty. */
  const EMPTY: u64 := 0xFFFF_FFFF_FFFF_FFFF

  // ---- reading fields ----

  function U32At(b: Block, at: nat): (n: nat)
    requires at + 4 <= 4096
    ensures n < 0x1_0000_0000
  {
    FieldBounds(b[at..at + 4]);
    UnLe(b[at..at + 4])
  }

  function U64At(b: Block, at: nat): u64
    requires at + 8 <= 4096
  {
    FieldBounds(b[at..at + 8]);
    UnLe(b[at..at + 8])
  }

  function Magic(b: Block): nat { U32At(b, 0) }

  /** `ntags` of a descriptor, `nblocks` of a revoke block. */
  function Count(b: Block): nat { U32At(b, 4) }

  /** `sequence` of a descriptor, revoke or commit block. */
  function Sequence(b: Block): u64 { U64At(b, 8) }

  /** Entry i of a descriptor's tags or a revoke block's list. */
  function EntryAt(b: Block, i: nat): u64
    requires i < MAX_TAGS
  {
    U64At(b, 16 + 8 * i)
  }

  function Entries(b: Block, n: nat): (xs: seq<u64>)
    requires n <= MAX_TAGS
    ensures |xs| == n && forall i :: 0 <= i < n ==> xs[i] == EntryAt(b, i)
  {
    seq(n, i requires 0 <= i < n => EntryAt(b, i))
  }

  function Checksum(b: Block): nat { U32At(b, 16) }

  function SuperSequence(b: Block): u64 { U64At(b, 24) }

  function SuperStart(b: Block): u64 { U64At(b, 32) }

  predicate IsCommit(b: Block) { Magic(b) == COMMIT_MAGIC }

  // ---- writing blocks ----

  /** The bytes s followed by zeros, as memset and memcpy leave them. */
  function Fill(s: seq<byte>): (b: Block)
    requires |s| <= 4096
    ensures b[..|s|] == s
  {
    s + seq(4096 - |s|, _ => 0)
  }

  function Header(magic: nat, count: nat, sequence: nat): (s: seq<byte>)
    ensures |s| == 16
  {
    Le(magic, 4) + Le(count, 4) + Le(sequence, 8)
  }

  function EntryBytes(xs: seq<u64>): (s: seq<byte>)
    ensures |s| == 8 * |xs|
  {
    if xs == [] then [] else Le(xs[0], 8) + EntryBytes(xs[1..])
  }

  /** A descriptor block or a revoke block: the two have one layout. */
  function ListBlock(magic: nat, sequence: nat, xs: seq<u64>): Block
    requires |xs| <= MAX_TAGS
  {
    Fill(Header(magic, |xs|, sequence) + EntryBytes(xs))
  }

  function CommitBlock(sequence: nat, checksum: Crc32.Word): Block {
    Fill(Header(COMMIT_MAGIC, 0, sequence) + Le(FromBits(checksum), 4))
  }

  function SuperBlock(maxlen: nat, first: nat, sequence: nat, start: nat): Block {
    Fill(Le(JOURNAL_MAGIC, 4) + Le(BLOCK_SIZE, 4) + Le(maxlen, 8) + Le(first, 8)
         + Le(sequence, 8) + Le(start, 8))
  }

  // ---- what was written is what is read ----

  /** A field of a filled block reads back, whatever stands before and after it. */
  lemma FieldReadsBack(before: seq<byte>, field: seq<byte>, after: seq<byte>)
    requires |before| + |field| + |after| <= 4096
    ensures Fill(before + field + after)[|before|..|before| + |field|] == field
  {
    var s := before + field + after;
    assert Fill(s)[|before|..|before| + |field|] == Fill(s)[..|s|][|before|..|before| + |field|];
  }

  lemma HeaderReadsBack(magic: nat, count: nat, sequence: nat, rest: seq<byte>)
    requires magic < 0x1_0000_0000 && count < 0x1_0000_0000 && sequence < U64 && |rest| <= 4080
    ensures var b := Fill(Header(magic, count, sequence) + rest);
            Magic(b) == magic && Count(b) == count && Sequence(b) == sequence
  {
    var m, c, s := Le(magic, 4), Le(count, 4), Le(sequence, 8);
    var all := Header(magic, count, sequence) + rest;
    assert all == [] + m + (c + s + rest);
    FieldReadsBack([], m, c + s + rest);
    assert all == m + c + (s + rest);
    FieldReadsBack(m, c, s + rest);
    assert all == (m + c) + s + rest;
    FieldReadsBack(m + c, s, rest);
    LeFields(magic);
    LeFields(count);
    LeFields(sequence);
  }

  lemma {:induction false} EntryBytesSplit(xs: seq<u64>, i: nat)
    requires i < |xs|
    ensures EntryBytes(xs) == EntryBytes(xs[..i]) + Le(xs[i], 8) + EntryBytes(xs[i + 1..])
  {
    if i == 0 {
      assert xs[..0] == [];
    } else {
      EntryBytesSplit(xs[1..], i - 1);
      assert xs[1..][..i - 1] == xs[..i][1..];
      assert xs[1..][i..] == xs[i + 1..];
    }
  }

  /** A descriptor or revoke block reads back as the list it was made of. */
  lemma ListBlockReadsBack(magic: nat, sequence: nat, xs: seq<u64>)
    requires magic < 0x1_0000_0000 && sequence < U64 && |xs| <= MAX_TAGS
    ensures var b := ListBlock(magic, sequence, xs);
            Magic(b) == magic && Count(b) == |xs| && Sequence(b) == sequence && Entries(b, |xs|) == xs
  {
    var b := ListBlock(magic, sequence, xs);
    var h := Header(magic, |xs|, sequence);
    HeaderReadsBack(magic, |xs|, sequence, EntryBytes(xs));
    forall i | 0 <= i < |xs| ensures EntryAt(b, i) == xs[i] {
      var before, after := h + EntryBytes(xs[..i]), EntryBytes(xs[i + 1..]);
      EntryBytesSplit(xs, i);
      assert h + EntryBytes(xs) == before + Le(xs[i], 8) + after;
      FieldReadsBack(before, Le(xs[i], 8), after);
      LeFields(xs[i]);
    }
    assert Entries(b, |xs|) == xs;
  }

  lemma CommitBlockReadsBack(sequence: nat, checksum: Crc32.Word)
    requires sequence < U64
    ensures var b := CommitBlock(sequence, checksum);
            IsCommit(b) && Sequence(b) == sequence && Checksum(b) == FromBits(checksum)
  {
    var h, c := Header(COMMIT_MAGIC, 0, sequence), Le(FromBits(checksum), 4);
    HeaderReadsBack(COMMIT_MAGIC, 0, sequence, c);
    assert h + c == h + c + [];
    FieldReadsBack(h, c, []);
    Powers2();
    FromBitsRoundTrip(checksum);
    LeFields(FromBits(checksum));
  }

  lemma SuperBlockReadsBack(maxlen: nat, first: nat, sequence: nat, start: nat)
    requires sequence < U64 && start < U64
    ensures var b := SuperBlock(maxlen, first, sequence, start);
            Magic(b) == JOURNAL_MAGIC && SuperSequence(b) == sequence && SuperStart(b) == start
  {
    var m, z, l := Le(JOURNAL_MAGIC, 4), Le(BLOCK_SIZE, 4), Le(maxlen, 8);
    var f, q, s := Le(first, 8), Le(sequence, 8), Le(start, 8);
    var all := m + z + l + f + q + s;
    assert all == [] + m + (z + l + f + q + s);
    FieldReadsBack([], m, z + l + f + q + s);
    assert all == (m + z + l + f) + q + s;
    FieldReadsBack(m + z + l + f, q, s);
    assert all == (m + z + l + f + q) + s + [];
    FieldReadsBack(m + z + l + f + q, s, []);
    LeFields(JOURNAL_MAGIC);
    LeFields(sequence);
    LeFields(start);
  }

  // ---- which byte of a block holds what ----

  /** The width bytes of s from position at on hold n, least significant first. */
  ghost predicate FieldAt(s: seq<byte>, at: nat, width: nat, n: nat)
    requires at + width <= |s|
  {
    forall i :: 0 <= i < width ==> s[at + i] == n / Power(256, i) % 256
  }

  ghost predicate ZeroFrom(b: Block, at: nat) {
    forall i :: at <= i < 4096 ==> b[i] == 0
  }

  /** What is read from a field is what the field holds, whatever stands there. */
  lemma FieldRead(s: seq<byte>, at: nat, width: nat)
    requires at + width <= |s|
    ensures FieldAt(s, at, width, UnLe(s[at..at + width]))
  {
    var f := s[at..at + width];
    FromDigitsRoundTrip(256, f);
    forall i | 0 <= i < width ensures s[at + i] == UnLe(f) / Power(256, i) % 256 {
      assert Le(UnLe(f), width)[i] == f[i];
      LePlace(UnLe(f), width, i);
    }
  }

  /** The fields recovery reads, in any block; a list of full length fills it. */
  lemma BlockFields(b: Block)
    ensures 16 + 8 * MAX_TAGS == BLOCK_SIZE
    ensures FieldAt(b, 0, 4, Magic(b)) && FieldAt(b, 4, 4, Count(b)) && FieldAt(b, 8, 8, Sequence(b))
    ensures FieldAt(b, 16, 4, Checksum(b))
    ensures FieldAt(b, 24, 8, SuperSequence(b)) && FieldAt(b, 32, 8, SuperStart(b))
    ensures forall i :: 0 <= i < MAX_TAGS ==> FieldAt(b, 16 + 8 * i, 8, EntryAt(b, i))
  {
    hide FieldAt, UnLe;
    FieldRead(b, 0, 4);
    FieldRead(b, 4, 4);
    FieldRead(b, 8, 8);
    FieldRead(b, 16, 4);
    FieldRead(b, 24, 8);
    FieldRead(b, 32, 8);
    forall i | 0 <= i < MAX_TAGS ensures FieldAt(b, 16 + 8 * i, 8, EntryAt(b, i)) {
      FieldRead(b, 16 + 8 * i, 8);
    }
  }

  lemma FieldHolds(before: seq<byte>, n: nat, width: nat, after: seq<byte>)
    requires |before| + width + |after| <= 4096
    ensures FieldAt(Fill(before + Le(n, width) + after), |before|, width, n)
  {
    var b := Fill(before + Le(n, width) + after);
    FieldReadsBack(before, Le(n, width), after);
    forall i | 0 <= i < width ensures b[|before| + i] == n / Power(256, i) % 256 {
      assert b[|before|..|before| + width][i] == b[|before| + i];
      LePlace(n, width, i);
    }
  }

  lemma HeaderHolds(magic: nat, count: nat, sequence: nat, rest: seq<byte>)
    requires |rest| <= 4080
    ensures var b := Fill(Header(magic, count, sequence) + rest);
            FieldAt(b, 0, 4, magic) && FieldAt(b, 4, 4, count) && FieldAt(b, 8, 8, sequence)
  {
    hide FieldAt, Fill;
    var m, c, s := Le(magic, 4), Le(count, 4), Le(sequence, 8);
    var all := Header(magic, count, sequence) + rest;
    assert all == [] + m + (c + s + rest);
    FieldHolds([], magic, 4, c + s + rest);
    assert all == m + c + (s + rest);
    FieldHolds(m, count, 4, s + rest);
    assert all == (m + c) + s + rest;
    FieldHolds(m + c, sequence, 8, rest);
  }

  /** A descriptor or revoke block: magic, count, number, the list in 8-byte steps, zeros. */
  lemma ListBlockLayout(magic: nat, sequence: nat, xs: seq<u64>)
    requires |xs| <= MAX_TAGS
    ensures var b := ListBlock(magic, sequence, xs);
            && FieldAt(b, 0, 4, magic) && FieldAt(b, 4, 4, |xs|) && FieldAt(b, 8, 8, sequence)
            && (forall i :: 0 <= i < |xs| ==> FieldAt(b, 16 + 8 * i, 8, xs[i]))
            && ZeroFrom(b, 16 + 8 * |xs|)
  {
    hide FieldAt;
    var b := ListBlock(magic, sequence, xs);
    var h := Header(magic, |xs|, sequence);
    HeaderHolds(magic, |xs|, sequence, EntryBytes(xs));
    forall i | 0 <= i < |xs| ensures FieldAt(b, 16 + 8 * i, 8, xs[i]) {
      var before, after := h + EntryBytes(xs[..i]), EntryBytes(xs[i + 1..]);
      EntryBytesSplit(xs, i);
      assert h + EntryBytes(xs) == before + Le(xs[i], 8) + after;
      FieldHolds(before, xs[i], 8, after);
    }
  }

  /** A commit block: magic, a reserved zero, number, checksum, zeros. */
  lemma CommitBlockLayout(sequence: nat, checksum: Crc32.Word)
    ensures var b := CommitBlock(sequence, checksum);
            && FieldAt(b, 0, 4, COMMIT_MAGIC) && FieldAt(b, 4, 4, 0) && FieldAt(b, 8, 8, sequence)
            && FieldAt(b, 16, 4, FromBits(checksum)) && ZeroFrom(b, 20)
  {
    hide FieldAt;
    var h, c := Header(COMMIT_MAGIC, 0, sequence), Le(FromBits(checksum), 4);
    HeaderHolds(COMMIT_MAGIC, 0, sequence, c);
    assert h + c == h + c + [];
    FieldHolds(h, FromBits(checksum), 4, []);
  }

  /** The journal superblock: magic, block size, length and start of the region, number, offset. */
  lemma SuperBlockLayout(maxlen: nat, first: nat, sequence: nat, start: nat)
    ensures var b := SuperBlock(maxlen, first, sequence, start);
            && FieldAt(b, 0, 4, JOURNAL_MAGIC) && FieldAt(b, 4, 4, BLOCK_SIZE) && FieldAt(b, 8, 8, maxlen)
            && FieldAt(b, 16, 8, first) && FieldAt(b, 24, 8, sequence) && FieldAt(b, 32, 8, start) && ZeroFrom(b, 40)
  {
    hide FieldAt;
    var m, z, l := Le(JOURNAL_MAGIC, 4), Le(BLOCK_SIZE, 4), Le(maxlen, 8);
    var f, q, s := Le(first, 8), Le(sequence, 8), Le(start, 8);
    var all := m + z + l + f + q + s;
    assert all == [] + m + (z + l + f + q + s);
    FieldHolds([], JOURNAL_MAGIC, 4, z + l + f + q + s);
    assert all == m + z + (l + f + q + s);
    FieldHolds(m, BLOCK_SIZE, 4, l + f + q + s);
    assert all == (m + z) + l + (f + q + s);
    FieldHolds(m + z, maxlen, 8, f + q + s);
    assert all == (m + z + l) + f + (q + s);
    FieldHolds(m + z + l, first, 8, q + s);
    assert all == (m + z + l + f) + q + s;
    FieldHolds(m + z + l + f, sequence, 8, s);
    assert all == (m + z + l + f + q) + s + [];
    FieldHolds(m + z + l + f + q, start, 8, []);
  }

  /** Two words with the same stored checksum are the same word. */
  lemma ChecksumInjective(a: Crc32.Word, b: Crc32.Word)
    requires FromBits(a) == FromBits(b)
    ensures a == b
  {
    FromBitsRoundTrip(a);
    FromBitsRoundTrip(b);
  }
}
