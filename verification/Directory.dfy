/**
 Directories: fixed slots in at most twelve blocks, searched from front to back. They act as
 a finite map from names to inode numbers and types.
 */
module Directory {
  import opened Bytes
  import opened DiskFormat
  import opened Structures
  import opened FileSystem

  datatype Entry = Entry(name: Name, ino: u32, fileType: byte)

  function Slot(s: Store, blocks: seq<u64>, b: nat, e: nat): (d: Dirent)
    requires InStore(s, blocks) && b < NDIR && blocks[b] != 0 && e < DIRENTS
    ensures |d.name| == 56
  {
    DirentAt(s[blocks[b]], e)
  }

  function NameOf(d: Dirent): Name
    requires |d.name| == 56
  {
    d.name[..if d.nameLen <= 56 then d.nameLen else 56]
  }

  function EntryOf(d: Dirent): Entry
    requires |d.name| == 56
  {
    Entry(NameOf(d), d.ino, d.fileType)
  }

  /** Slot e of block b exists and holds an entry. */
  predicate UsedSlot(s: Store, blocks: seq<u64>, b: nat, e: nat)
    requires InStore(s, blocks)
  {
    b < NDIR && e < DIRENTS && blocks[b] != 0 && Slot(s, blocks, b, e).ino != 0
  }

  /** The map a directory stands for, as its set of entries. */
  ghost function Graph(s: Store, blocks: seq<u64>): set<Entry>
    requires InStore(s, blocks)
  {
    set b: nat, e: nat | b < NDIR && e < DIRENTS && UsedSlot(s, blocks, b, e) :: EntryOf(Slot(s, blocks, b, e))
  }

  ghost predicate NameFits(s: Store, blocks: seq<u64>, b: nat, e: nat)
    requires InStore(s, blocks) && UsedSlot(s, blocks, b, e)
  {
    0 < Slot(s, blocks, b, e).nameLen <= NAME_MAX
  }

  ghost predicate NamesDiffer(s: Store, blocks: seq<u64>, b: nat, e: nat, c: nat, f: nat)
    requires InStore(s, blocks) && UsedSlot(s, blocks, b, e) && UsedSlot(s, blocks, c, f)
  {
    NameOf(Slot(s, blocks, b, e)) != NameOf(Slot(s, blocks, c, f))
  }

  /** Every name has a legal length, and no two slots carry the same one. */
  ghost predicate SlotsOk(s: Store, blocks: seq<u64>) {
    && InStore(s, blocks)
    && (forall b: nat, e: nat :: UsedSlot(s, blocks, b, e) ==> NameFits(s, blocks, b, e))
    && (forall b: nat, e: nat, c: nat, f: nat ::
          UsedSlot(s, blocks, b, e) && UsedSlot(s, blocks, c, f) && (b != c || e != f) ==>
            NamesDiffer(s, blocks, b, e, c, f))
  }

  /** Allocated blocks come first. */
  ghost predicate IsPrefix(blocks: seq<u64>, n: nat) {
    |blocks| == NDIR && n <= NDIR && forall k :: 0 <= k < NDIR ==> (blocks[k] != 0 <==> k < n)
  }

  /** A well-kept directory with n allocated blocks. */
  ghost predicate DirOk(s: Store, i: Inode, n: nat) {
    IsDir(i) && IsPrefix(i.blocks, n) && i.size == 4096 * n && SlotsOk(s, i.blocks)
  }

  /** The map is a function: a name has one entry. */
  lemma GraphIsMap(s: Store, blocks: seq<u64>, x: Entry, y: Entry)
    requires SlotsOk(s, blocks) && x in Graph(s, blocks) && y in Graph(s, blocks) && x.name == y.name
    ensures x == y
  {
    hide DirentAt;
    var b, e := SlotOf(s, blocks, x);
    var c, f := SlotOf(s, blocks, y);
    assert b != c || e != f ==> NamesDiffer(s, blocks, b, e, c, f);
  }

  lemma SlotOf(s: Store, blocks: seq<u64>, x: Entry) returns (b: nat, e: nat)
    requires InStore(s, blocks) && x in Graph(s, blocks)
    ensures UsedSlot(s, blocks, b, e) && EntryOf(Slot(s, blocks, b, e)) == x
  {
    hide DirentAt;
    b, e :| b < NDIR && e < DIRENTS && UsedSlot(s, blocks, b, e) && EntryOf(Slot(s, blocks, b, e)) == x;
  }

  lemma SlotInGraph(s: Store, blocks: seq<u64>, b: nat, e: nat)
    requires InStore(s, blocks) && UsedSlot(s, blocks, b, e)
    ensures EntryOf(Slot(s, blocks, b, e)) in Graph(s, blocks)
  {
    hide DirentAt;
  }

  /** The comparison of length and bytes is equality of names. */
  lemma CarriesName(d: Dirent, name: Name)
    requires |d.name| == 56 && d.nameLen <= NAME_MAX
    ensures Carries(d, name) <==> d.ino != 0 && NameOf(d) == name
  {}

  // ---- one slot changes ----

  /** Block b of the directory gets content in which only slot e differs. */
  ghost predicate OneSlot(s: Store, t: Store, blocks: seq<u64>, b: nat, e: nat, d: Dirent) {
    && InStore(s, blocks) && InStore(t, blocks) && b < NDIR && e < DIRENTS && blocks[b] != 0 && |d.name| == 56
    && (forall c: nat, f: nat :: c < NDIR && f < DIRENTS && blocks[c] != 0 ==>
          (Slot(t, blocks, c, f) == if c == b && f == e then d else Slot(s, blocks, c, f)))
  }

  lemma AddEntry(s: Store, t: Store, blocks: seq<u64>, b: nat, e: nat, d: Dirent)
    requires SlotsOk(s, blocks) && OneSlot(s, t, blocks, b, e, d) && !UsedSlot(s, blocks, b, e)
    requires d.ino != 0 && 0 < d.nameLen <= NAME_MAX
    requires forall x :: x in Graph(s, blocks) ==> x.name != NameOf(d)
    ensures SlotsOk(t, blocks) && Graph(t, blocks) == Graph(s, blocks) + {EntryOf(d)}
  {
    hide DirentAt, Slot;
    forall c: nat, f: nat | UsedSlot(t, blocks, c, f) ensures NameFits(t, blocks, c, f) {
      assert (c != b || f != e) ==> UsedSlot(s, blocks, c, f) && NameFits(s, blocks, c, f);
    }
    forall c: nat, f: nat, c2: nat, f2: nat
      | UsedSlot(t, blocks, c, f) && UsedSlot(t, blocks, c2, f2) && (c != c2 || f != f2)
      ensures NamesDiffer(t, blocks, c, f, c2, f2)
    {
      if (c == b && f == e) || (c2 == b && f2 == e) {
        var o, p := if c == b && f == e then c2 else c, if c == b && f == e then f2 else f;
        SlotInGraph(s, blocks, o, p);
      } else {
        assert NamesDiffer(s, blocks, c, f, c2, f2);
      }
    }
    GraphAdds(s, t, blocks, b, e, d);
  }

  lemma GraphAdds(s: Store, t: Store, blocks: seq<u64>, b: nat, e: nat, d: Dirent)
    requires OneSlot(s, t, blocks, b, e, d) && !UsedSlot(s, blocks, b, e) && d.ino != 0
    ensures Graph(t, blocks) == Graph(s, blocks) + {EntryOf(d)}
  {
    hide DirentAt, Slot, Graph;
    forall x ensures x in Graph(t, blocks) <==> x in Graph(s, blocks) || x == EntryOf(d) {
      if x in Graph(t, blocks) {
        var c, f := SlotOf(t, blocks, x);
        if c != b || f != e {
          SlotInGraph(s, blocks, c, f);
        }
      }
      if x in Graph(s, blocks) {
        var c, f := SlotOf(s, blocks, x);
        SlotInGraph(t, blocks, c, f);
      }
      if x == EntryOf(d) {
        SlotInGraph(t, blocks, b, e);
      }
    }
  }

  lemma RemoveEntry(s: Store, t: Store, blocks: seq<u64>, b: nat, e: nat, d: Dirent)
    requires SlotsOk(s, blocks) && OneSlot(s, t, blocks, b, e, d) && UsedSlot(s, blocks, b, e) && d.ino == 0
    ensures SlotsOk(t, blocks) && Graph(t, blocks) == Graph(s, blocks) - {EntryOf(Slot(s, blocks, b, e))}
  {
    hide DirentAt, Slot, Graph;
    forall c: nat, f: nat | UsedSlot(t, blocks, c, f) ensures UsedSlot(s, blocks, c, f) && NameFits(t, blocks, c, f) {
      assert UsedSlot(s, blocks, c, f) && NameFits(s, blocks, c, f);
    }
    forall c: nat, f: nat, c2: nat, f2: nat
      | UsedSlot(t, blocks, c, f) && UsedSlot(t, blocks, c2, f2) && (c != c2 || f != f2)
      ensures NamesDiffer(t, blocks, c, f, c2, f2)
    {
      assert NamesDiffer(s, blocks, c, f, c2, f2);
    }
    var gone := EntryOf(Slot(s, blocks, b, e));
    forall x ensures x in Graph(t, blocks) <==> x in Graph(s, blocks) && x != gone {
      if x in Graph(t, blocks) {
        var c, f := SlotOf(t, blocks, x);
        SlotInGraph(s, blocks, c, f);
        assert NamesDiffer(s, blocks, c, f, b, e);
      }
      if x in Graph(s, blocks) && x != gone {
        var c, f := SlotOf(s, blocks, x);
        SlotInGraph(t, blocks, c, f);
      }
    }
  }

  // ---- searching ----

  /** Every slot before slot e of block b, in search order. */
  predicate Before(c: nat, f: nat, b: nat, e: nat) {
    c < b || (c == b && f < e)
  }

  /** The slot that carries the name, if there is one. */
  method FindSlot(fs: FileSystem, blocks: seq<u64>, name: Name, ghost n: nat) returns (found: bool, b: nat, e: nat)
    requires SlotsOk(fs.store, blocks) && IsPrefix(blocks, n)
    ensures found ==> UsedSlot(fs.store, blocks, b, e) && NameOf(Slot(fs.store, blocks, b, e)) == name
    ensures !found ==> forall x :: x in Graph(fs.store, blocks) ==> x.name != name
  {
    hide DirentAt, Slot, NameOf, Carries;
    ghost var s := fs.store;
    b, e := 0, 0;
    while b < NDIR && blocks[b] != 0
      invariant b <= NDIR
      invariant forall c: nat, f: nat :: c < b && UsedSlot(s, blocks, c, f) ==> NameOf(Slot(s, blocks, c, f)) != name
    {
      e := 0;
      while e < DIRENTS
        invariant e <= DIRENTS
        invariant forall c: nat, f: nat :: Before(c, f, b, e) && UsedSlot(s, blocks, c, f) ==>
                    NameOf(Slot(s, blocks, c, f)) != name
      {
        var d := Slot(fs.store, blocks, b, e);
        assert d.ino != 0 ==> UsedSlot(s, blocks, b, e) && NameFits(s, blocks, b, e);
        MayCarry(d, name);
        if Carries(d, name) {
          return true, b, e;
        }
        e := e + 1;
      }
      b := b + 1;
    }
    found := false;
    forall x | x in Graph(s, blocks) ensures x.name != name {
      var c, f := SlotOf(s, blocks, x);
    }
  }

  lemma MayCarry(d: Dirent, name: Name)
    requires |d.name| == 56 && (d.ino != 0 ==> d.nameLen <= NAME_MAX)
    ensures Carries(d, name) <==> d.ino != 0 && NameOf(d) == name
  {
    if d.ino != 0 {
      CarriesName(d, name);
    }
  }

  /** The inode is a directory that keeps the rules, with n blocks. */
  ghost predicate GoodDir(l: Layout, s: Store, ino: nat, n: nat) {
    Fitting(l, s) && (IsInode(l, ino) && IsDir(InodeAt(l, s, ino)) ==> DirOk(s, InodeAt(l, s, ino), n))
  }

  function DirStatus(l: Layout, s: Store, ino: nat): Status
    requires Fitting(l, s)
  {
    if !IsInode(l, ino) then NoSuchInode else if !IsDir(InodeAt(l, s, ino)) then NotDirectory else Ok
  }

  predicate GoodName(name: Name) {
    0 < |name| <= NAME_MAX
  }

  method Lookup(fs: FileSystem, dir: nat, name: Name, ghost n: nat) returns (status: Status, ino: u32, fileType: byte)
    requires GoodDir(fs.l, fs.store, dir, n)
    ensures DirStatus(fs.l, fs.store, dir) != Ok ==> status == DirStatus(fs.l, fs.store, dir)
    ensures DirStatus(fs.l, fs.store, dir) == Ok ==>
      (var g := Graph(fs.store, InodeAt(fs.l, fs.store, dir).blocks);
       && (status == BadName <==> !GoodName(name))
       && (status == Ok <==> GoodName(name) && exists x :: x in g && x.name == name)
       && (status == NotFound <==> GoodName(name) && forall x :: x in g ==> x.name != name)
       && (status == Ok ==> Entry(name, ino, fileType) in g))
  {
    hide InodeAt, Graph, DirentAt, Slot;
    ino, fileType := 0, 0;
    if !IsInode(fs.l, dir) {
      return NoSuchInode, 0, 0;
    }
    var i := InodeAt(fs.l, fs.store, dir);
    if !IsDir(i) {
      return NotDirectory, 0, 0;
    }
    if !GoodName(name) {
      return BadName, 0, 0;
    }
    var found, b, e := FindSlot(fs, i.blocks, name, n);
    if !found {
      return NotFound, 0, 0;
    }
    var d := Slot(fs.store, i.blocks, b, e);
    SlotInGraph(fs.store, i.blocks, b, e);
    assert EntryOf(d) == Entry(name, d.ino, d.fileType);
    status, ino, fileType := Ok, d.ino, d.fileType;
  }

  /** Nothing but "." and "..". */
  predicate IsDots(name: Name) {
    name == [46] || name == [46, 46]
  }

  method IsEmpty(fs: FileSystem, dir: nat, ghost n: nat) returns (status: Status, empty: bool)
    requires GoodDir(fs.l, fs.store, dir, n)
    ensures status == DirStatus(fs.l, fs.store, dir)
    ensures status == Ok ==>
      (empty <==> forall x :: x in Graph(fs.store, InodeAt(fs.l, fs.store, dir).blocks) ==> IsDots(x.name))
  {
    hide InodeAt, DirentAt, Slot;
    empty := false;
    if !IsInode(fs.l, dir) {
      return NoSuchInode, false;
    }
    var i := InodeAt(fs.l, fs.store, dir);
    if !IsDir(i) {
      return NotDirectory, false;
    }
    status := Ok;
    var b := 0;
    while b < NDIR && i.blocks[b] != 0
      invariant b <= NDIR
      invariant forall c: nat, f: nat :: c < b && UsedSlot(fs.store, i.blocks, c, f) ==>
                  IsDots(NameOf(Slot(fs.store, i.blocks, c, f)))
    {
      var e := 0;
      while e < DIRENTS
        invariant e <= DIRENTS
        invariant forall c: nat, f: nat :: Before(c, f, b, e) && UsedSlot(fs.store, i.blocks, c, f) ==>
                    IsDots(NameOf(Slot(fs.store, i.blocks, c, f)))
      {
        var d := Slot(fs.store, i.blocks, b, e);
        if d.ino != 0 {
          assert UsedSlot(fs.store, i.blocks, b, e) && NameFits(fs.store, i.blocks, b, e);
          DotsBytes(d);
          var isDot := d.nameLen == 1 && d.name[0] == 46;
          var isDotDot := d.nameLen == 2 && d.name[0] == 46 && d.name[1] == 46;
          if !isDot && !isDotDot {
            SlotInGraph(fs.store, i.blocks, b, e);
            return;
          }
        }
        e := e + 1;
      }
      b := b + 1;
    }
    empty := true;
    forall x | x in Graph(fs.store, i.blocks) ensures IsDots(x.name) {
      var c, f := SlotOf(fs.store, i.blocks, x);
    }
  }

  lemma DotsBytes(d: Dirent)
    requires |d.name| == 56 && 0 < d.nameLen <= NAME_MAX
    ensures IsDots(NameOf(d)) <==>
            (d.nameLen == 1 && d.name[0] == 46) || (d.nameLen == 2 && d.name[0] == 46 && d.name[1] == 46)
  {
    if d.nameLen == 1 {
      assert NameOf(d) == [d.name[0]];
    } else if d.nameLen == 2 {
      assert NameOf(d) == [d.name[0], d.name[1]];
    }
  }

  // ---- adding and removing ----

  /** New content for block b changes slot e of the directory and no other. */
  lemma FillSlot(s: Store, blocks: seq<u64>, b: nat, e: nat, content: Block, d: Dirent)
    requires InStore(s, blocks) && b < NDIR && blocks[b] != 0 && e < DIRENTS && |d.name| == 56
    requires forall i, j :: 0 <= i < j < NDIR && blocks[i] != 0 ==> blocks[i] != blocks[j]
    requires forall f: nat :: f < DIRENTS ==> (DirentAt(content, f) == if f == e then d else Slot(s, blocks, b, f))
    ensures OneSlot(s, s[blocks[b] := content], blocks, b, e, d)
  {
    hide DirentAt;
    var t := s[blocks[b] := content];
    forall c: nat, f: nat | c < NDIR && f < DIRENTS && blocks[c] != 0
      ensures Slot(t, blocks, c, f) == if c == b && f == e then d else Slot(s, blocks, c, f)
    {
      assert c != b ==> blocks[if c < b then c else b] != blocks[if c < b then b else c];
    }
  }

  lemma PaddedName(ino: u32, name: Name, fileType: byte)
    requires GoodName(name)
    ensures EntryOf(Dirent(ino, |name|, fileType, Padded(name))) == Entry(name, ino, fileType)
  {}

  /** Slot e of block b, which carried the name, is unused; every other slot is as it was. */
  ghost predicate Vacated(s: Store, t: Store, blocks: seq<u64>, b: nat, e: nat, name: Name)
    requires InStore(s, blocks) && InStore(t, blocks)
  {
    && UsedSlot(s, blocks, b, e) && NameOf(Slot(s, blocks, b, e)) == name && !UsedSlot(t, blocks, b, e)
    && OneSlot(s, t, blocks, b, e, Slot(t, blocks, b, e))
  }

  method Remove(fs: FileSystem, dir: nat, name: Name, ghost live: set<nat>, ghost n: nat) returns (status: Status)
    requires GoodDir(fs.l, fs.store, dir, n) && Owned(fs.l, fs.store, live) && (IsInode(fs.l, dir) ==> dir in live)
    modifies fs
    ensures fs.Valid() && Owned(fs.l, fs.store, live)
    ensures DirStatus(fs.l, old(fs.store), dir) != Ok ==> status == DirStatus(fs.l, old(fs.store), dir)
    ensures DirStatus(fs.l, old(fs.store), dir) == Ok ==> status == Ok || status == NotFound
    ensures status != Ok ==> fs.store == old(fs.store)
    ensures DirStatus(fs.l, old(fs.store), dir) == Ok ==>
      (var i := InodeAt(fs.l, old(fs.store), dir);
       && InodeAt(fs.l, fs.store, dir) == i && DirOk(fs.store, i, n)
       && OneInode(fs.l, old(fs.store), fs.store, dir, i.blocks)
       && OwnChange(fs.l, old(fs.store), fs.store, i.blocks, i.blocks)
       && InStore(old(fs.store), i.blocks)
       && Graph(fs.store, i.blocks) == (set x | x in Graph(old(fs.store), i.blocks) && x.name != name)
       && (status == Ok ==> exists b: nat, e: nat :: Vacated(old(fs.store), fs.store, i.blocks, b, e, name))
       && (status == Ok <==> exists x :: x in Graph(old(fs.store), i.blocks) && x.name == name))
  {
    hide InodeAt, DirentAt, Slot, Graph, Marked, NameOf, WithoutDirent;
    if !IsInode(fs.l, dir) {
      return NoSuchInode;
    }
    var i := InodeAt(fs.l, fs.store, dir);
    if !IsDir(i) {
      return NotDirectory;
    }
    NothingDone(fs.l, fs.store, i.blocks);
    Abandon(fs.l, fs.store, fs.store, live, dir, i.blocks);
    var found, b, e := FindSlot(fs, i.blocks, name, n);
    if !found {
      return NotFound;
    }
    ghost var s, gone := fs.store, Slot(fs.store, i.blocks, b, e);
    ClearSlot(fs, i.blocks, b, e);
    FillBlock(fs.l, s, s, i.blocks, i.blocks, b, fs.store[i.blocks[b]]);
    Abandon(fs.l, s, fs.store, live, dir, i.blocks);
    OnlyOneGone(s, i.blocks, b, e, name);
    assert Vacated(s, fs.store, i.blocks, b, e, name);
    status := Ok;
  }

  method ClearSlot(fs: FileSystem, blocks: seq<u64>, b: nat, e: nat)
    requires SlotsOk(fs.store, blocks) && UsedSlot(fs.store, blocks, b, e)
    requires forall i, j :: 0 <= i < j < NDIR && blocks[i] != 0 ==> blocks[i] != blocks[j]
    modifies fs
    ensures |fs.store| == |old(fs.store)| && fs.store == old(fs.store)[blocks[b] := fs.store[blocks[b]]]
    ensures SlotsOk(fs.store, blocks) && !UsedSlot(fs.store, blocks, b, e)
    ensures OneSlot(old(fs.store), fs.store, blocks, b, e, Slot(fs.store, blocks, b, e))
    ensures Graph(fs.store, blocks) == Graph(old(fs.store), blocks) - {EntryOf(Slot(old(fs.store), blocks, b, e))}
  {
    hide DirentAt, Graph, WithoutDirent;
    ghost var s := fs.store;
    var content := WithoutDirent(fs.store[blocks[b]], e);
    forall f: nat | f < DIRENTS
      ensures DirentAt(content, f) == if f == e then DirentAt(content, e) else Slot(s, blocks, b, f)
    {
      WithoutDirentAt(s[blocks[b]], e, f);
    }
    WithoutDirentAt(s[blocks[b]], e, e);
    FillSlot(s, blocks, b, e, content, DirentAt(content, e));
    fs.store := fs.store[blocks[b] := content];
    RemoveEntry(s, fs.store, blocks, b, e, DirentAt(content, e));
  }

  /** Without the one entry of that name, no entry of that name is left. */
  lemma OnlyOneGone(s: Store, blocks: seq<u64>, b: nat, e: nat, name: Name)
    requires SlotsOk(s, blocks) && UsedSlot(s, blocks, b, e) && NameOf(Slot(s, blocks, b, e)) == name
    ensures EntryOf(Slot(s, blocks, b, e)) in Graph(s, blocks)
    ensures Graph(s, blocks) - {EntryOf(Slot(s, blocks, b, e))} == (set x | x in Graph(s, blocks) && x.name != name)
  {
    hide DirentAt, Slot, Graph, NameOf;
    SlotInGraph(s, blocks, b, e);
    forall x | x in Graph(s, blocks) && x.name == name ensures x == EntryOf(Slot(s, blocks, b, e)) {
      GraphIsMap(s, blocks, x, EntryOf(Slot(s, blocks, b, e)));
    }
  }

  /** The first unused slot of a block. */
  method FreeSlot(fs: FileSystem, blocks: seq<u64>, b: nat) returns (found: bool, e: nat)
    requires InStore(fs.store, blocks) && b < NDIR && blocks[b] != 0
    ensures found ==> e < DIRENTS && !UsedSlot(fs.store, blocks, b, e)
    ensures found ==> forall f: nat :: f < e ==> UsedSlot(fs.store, blocks, b, f)
    ensures !found ==> forall f: nat :: f < DIRENTS ==> UsedSlot(fs.store, blocks, b, f)
  {
    hide DirentAt;
    e := 0;
    while e < DIRENTS
      invariant e <= DIRENTS
      invariant forall f: nat :: f < e ==> UsedSlot(fs.store, blocks, b, f)
    {
      if Slot(fs.store, blocks, b, e).ino == 0 {
        return true, e;
      }
      e := e + 1;
    }
    found := false;
  }

  /** Every entry stays in its slot, byte for byte. */
  ghost predicate SlotsStay(s: Store, before: seq<u64>, t: Store, blocks: seq<u64>)
    requires InStore(s, before) && InStore(t, blocks)
  {
    forall c: nat, f: nat :: UsedSlot(s, before, c, f) ==>
      UsedSlot(t, blocks, c, f) && Slot(t, blocks, c, f) == Slot(s, before, c, f)
  }

  method SetSlot(fs: FileSystem, blocks: seq<u64>, b: nat, e: nat, name: Name, ino: u32, fileType: byte)
    requires SlotsOk(fs.store, blocks) && b < NDIR && e < DIRENTS && blocks[b] != 0 && !UsedSlot(fs.store, blocks, b, e)
    requires forall i, j :: 0 <= i < j < NDIR && blocks[i] != 0 ==> blocks[i] != blocks[j]
    requires GoodName(name) && ino != 0 && forall x :: x in Graph(fs.store, blocks) ==> x.name != name
    modifies fs
    ensures |fs.store| == |old(fs.store)| && fs.store == old(fs.store)[blocks[b] := fs.store[blocks[b]]]
    ensures SlotsOk(fs.store, blocks)
    ensures SlotsStay(old(fs.store), blocks, fs.store, blocks)
    ensures UsedSlot(fs.store, blocks, b, e) && EntryOf(Slot(fs.store, blocks, b, e)) == Entry(name, ino, fileType)
    ensures Graph(fs.store, blocks) == Graph(old(fs.store), blocks) + {Entry(name, ino, fileType)}
  {
    hide DirentAt, Graph, WithDirent, Padded;
    ghost var s := fs.store;
    ghost var d := Dirent(ino, |name|, fileType, Padded(name));
    PaddedName(ino, name, fileType);
    var content := WithDirent(fs.store[blocks[b]], e, ino, name, fileType);
    forall f: nat | f < DIRENTS ensures DirentAt(content, f) == if f == e then d else Slot(s, blocks, b, f) {
      WithDirentAt(s[blocks[b]], e, ino, name, fileType, f);
    }
    FillSlot(s, blocks, b, e, content, d);
    fs.store := fs.store[blocks[b] := content];
    AddEntry(s, fs.store, blocks, b, e, d);
  }

  /** An empty block behind the others changes nothing in the map. */
  lemma EmptyBlock(s: Store, t: Store, blocks: seq<u64>, n: nat, nb: u64)
    requires SlotsOk(s, blocks) && IsPrefix(blocks, n) && n < NDIR && |t| == |s| && 0 < nb < |s| && nb !in blocks
    requires forall k :: 0 <= k < NDIR && blocks[k] != 0 ==> t[blocks[k]] == s[blocks[k]]
    requires t[nb] == ZEROS
    ensures SlotsOk(t, blocks[n := nb]) && IsPrefix(blocks[n := nb], n + 1)
    ensures Graph(t, blocks[n := nb]) == Graph(s, blocks) && SlotsStay(s, blocks, t, blocks[n := nb])
    ensures !UsedSlot(t, blocks[n := nb], n, 0)
  {
    hide DirentAt, NameOf, Graph;
    var held := blocks[n := nb];
    forall c: nat, f: nat | c < NDIR && f < DIRENTS
      ensures UsedSlot(t, held, c, f) <==> UsedSlot(s, blocks, c, f)
      ensures UsedSlot(s, blocks, c, f) ==> Slot(t, held, c, f) == Slot(s, blocks, c, f)
    {
      ZeroSlot(f);
    }
    forall c: nat, f: nat | UsedSlot(t, held, c, f) ensures NameFits(t, held, c, f) {
      assert NameFits(s, blocks, c, f);
    }
    forall c: nat, f: nat, c2: nat, f2: nat
      | UsedSlot(t, held, c, f) && UsedSlot(t, held, c2, f2) && (c != c2 || f != f2)
      ensures NamesDiffer(t, held, c, f, c2, f2)
    {
      assert NamesDiffer(s, blocks, c, f, c2, f2);
    }
    forall x ensures x in Graph(t, held) <==> x in Graph(s, blocks) {
      if x in Graph(t, held) {
        var c, f := SlotOf(t, held, x);
        SlotInGraph(s, blocks, c, f);
      }
      if x in Graph(s, blocks) {
        var c, f := SlotOf(s, blocks, x);
        SlotInGraph(t, held, c, f);
      }
    }
  }

  lemma ZeroSlot(e: nat)
    requires e < DIRENTS
    ensures DirentAt(ZEROS, e).ino == 0
  {
    var z := ZEROS[64 * e..64 * e + 4];
    assert z == [0, 0, 0, 0];
    assert FromDigits(256, [0, 0, 0, 0]) == 0;
  }

  /** The same content in the directory's blocks is the same map. */
  lemma SameGraph(s: Store, t: Store, blocks: seq<u64>)
    requires SlotsOk(s, blocks) && InStore(t, blocks)
    requires forall k :: 0 <= k < NDIR && blocks[k] != 0 ==> t[blocks[k]] == s[blocks[k]]
    ensures SlotsOk(t, blocks) && Graph(t, blocks) == Graph(s, blocks)
  {
    hide DirentAt, NameOf;
    forall b: nat, e: nat ensures UsedSlot(t, blocks, b, e) <==> UsedSlot(s, blocks, b, e) {
    }
    forall b: nat, e: nat | UsedSlot(t, blocks, b, e) ensures NameFits(t, blocks, b, e) {
      assert NameFits(s, blocks, b, e);
    }
    forall b: nat, e: nat, c: nat, f: nat
      | UsedSlot(t, blocks, b, e) && UsedSlot(t, blocks, c, f) && (b != c || e != f)
      ensures NamesDiffer(t, blocks, b, e, c, f)
    {
      assert NamesDiffer(s, blocks, b, e, c, f);
    }
    forall x ensures x in Graph(t, blocks) <==> x in Graph(s, blocks) {
      if x in Graph(t, blocks) {
        var c, f := SlotOf(t, blocks, x);
        SlotInGraph(s, blocks, c, f);
      }
      if x in Graph(s, blocks) {
        var c, f := SlotOf(s, blocks, x);
        SlotInGraph(t, blocks, c, f);
      }
    }
  }

  lemma SlotsStayOn(s: Store, before: seq<u64>, cleared: Store, filled: Store, t: Store, blocks: seq<u64>)
    requires InStore(s, before) && InStore(cleared, blocks) && InStore(filled, blocks) && InStore(t, blocks)
    requires SlotsStay(s, before, cleared, blocks) && SlotsStay(cleared, blocks, filled, blocks)
    requires forall k :: 0 <= k < NDIR && blocks[k] != 0 ==> t[blocks[k]] == filled[blocks[k]]
    ensures SlotsStay(s, before, t, blocks)
    ensures forall c: nat, f: nat :: UsedSlot(filled, blocks, c, f) ==>
      UsedSlot(t, blocks, c, f) && Slot(t, blocks, c, f) == Slot(filled, blocks, c, f)
  {
    hide DirentAt;
  }

  /** Operations on another inode leave a directory's map alone. */
  lemma OthersKeepGraph(l: Layout, s: Store, t: Store, live: set<nat>, ino: nat, jno: nat)
    requires Owned(l, s, live) && Owned(l, t, live) && ino in live && jno in live && jno != ino
    requires OneInode(l, s, t, ino, InodeAt(l, t, ino).blocks)
    requires SlotsOk(s, InodeAt(l, s, jno).blocks)
    ensures InodeAt(l, t, jno) == InodeAt(l, s, jno) && SlotsOk(t, InodeAt(l, t, jno).blocks)
    ensures Graph(t, InodeAt(l, t, jno).blocks) == Graph(s, InodeAt(l, s, jno).blocks)
  {
    hide InodeAt, Graph, DirentAt, Marked, SlotsOk;
    OwnedUpdate(l, s, t, live, ino);
    OwnedInStore(l, t, live, jno);
    SameGraph(s, t, InodeAt(l, s, jno).blocks);
  }

  lemma OwnedInStore(l: Layout, s: Store, live: set<nat>, ino: nat)
    requires Owned(l, s, live) && ino in live
    ensures Fitting(l, s) && IsInode(l, ino) && InStore(s, InodeAt(l, s, ino).blocks)
  {
    hide InodeAt, Marked;
  }

  lemma NewBlockEmpty(l: Layout, s: Store, claimed: Store, cleared: Store, before: seq<u64>, blocks: seq<u64>, b: nat)
    requires SlotsOk(s, before) && IsPrefix(before, b) && b < NDIR && Working(l, s, claimed, before, blocks)
    requires blocks[b] != 0 && blocks == before[b := blocks[b]] && BlocksOk(l, s, before)
    requires blocks[b] < |claimed| && cleared == claimed[blocks[b] := ZEROS]
    requires forall c: nat :: IsData(l, c) ==> claimed[c] == s[c]
    ensures SlotsOk(cleared, blocks) && IsPrefix(blocks, b + 1) && Graph(cleared, blocks) == Graph(s, before)
    ensures SlotsStay(s, before, cleared, blocks)
    ensures !UsedSlot(cleared, blocks, b, 0)
    ensures forall k, m :: 0 <= k < m < NDIR && blocks[k] != 0 ==> blocks[k] != blocks[m]
  {
    hide Marked, Graph, UsedSlot, DirentAt;
    var nb := blocks[b];
    forall k | 0 <= k < NDIR ensures before[k] != nb {
      assert k != b ==> before[k] == blocks[k] && blocks[if k < b then k else b] != 0 ==> blocks[k] != nb;
    }
    EmptyBlock(s, cleared, before, b, nb);
  }

  /** Every slot of the first n blocks holds an entry. */
  ghost predicate AllUsed(s: Store, blocks: seq<u64>, n: nat)
    requires InStore(s, blocks)
  {
    forall b: nat, f: nat :: b < n && b < NDIR && f < DIRENTS ==> UsedSlot(s, blocks, b, f)
  }

  /** There is nowhere to put an entry: 768 entries, or all blocks full and none free. */
  ghost predicate Full(l: Layout, s: Store, blocks: seq<u64>, n: nat)
    requires Fitting(l, s) && InStore(s, blocks)
  {
    AllUsed(s, blocks, n) && (n == NDIR || forall b: nat :: IsData(l, b) ==> Marked(l, s, b))
  }

  /**
   Adds one entry: in the first free slot, or in a fresh block behind the others. It fails
   for lack of space if and only if the directory is full.
   */
  method Add(fs: FileSystem, dir: nat, name: Name, ino: u32, fileType: byte, ghost live: set<nat>, ghost n: nat)
    returns (status: Status)
    requires GoodDir(fs.l, fs.store, dir, n) && Owned(fs.l, fs.store, live) && (IsInode(fs.l, dir) ==> dir in live)
    requires ino != 0
    modifies fs
    ensures fs.Valid() && Owned(fs.l, fs.store, live)
    ensures DirStatus(fs.l, old(fs.store), dir) != Ok ==> status == DirStatus(fs.l, old(fs.store), dir)
    ensures status != Ok ==> fs.store == old(fs.store)
    ensures DirStatus(fs.l, old(fs.store), dir) == Ok ==>
      (var i, g := InodeAt(fs.l, old(fs.store), dir), Graph(old(fs.store), InodeAt(fs.l, old(fs.store), dir).blocks);
       && status in {Ok, BadName, Exists, NoSpace}
       && (status == BadName <==> !GoodName(name))
       && (status == Exists <==> GoodName(name) && exists x :: x in g && x.name == name)
       && (status == NoSpace <==>
             GoodName(name) && (forall x :: x in g ==> x.name != name) && Full(fs.l, old(fs.store), i.blocks, n)))
    ensures status == Ok ==> Added(fs.l, old(fs.store), fs.store, dir, Entry(name, ino, fileType), n)
  {
    hide InodeAt, DirentAt, Slot, Graph, Marked, UsedSlot, WithInode, Full, Added, SlotsOk;
    if !IsInode(fs.l, dir) {
      return NoSuchInode;
    }
    var i := InodeAt(fs.l, fs.store, dir);
    if !IsDir(i) {
      return NotDirectory;
    }
    if !GoodName(name) {
      return BadName;
    }
    var found, seenIno, seenType := Lookup(fs, dir, name, n);
    if found == Ok {
      return Exists;
    }
    status := Insert(fs, dir, i, name, ino, fileType, live, n);
  }

  /** The entry stands in the first slot that was unused, and every other entry where it stood. */
  ghost predicate Placed(s: Store, before: seq<u64>, t: Store, blocks: seq<u64>, b: nat, e: nat, x: Entry)
    requires InStore(s, before) && InStore(t, blocks)
  {
    && UsedSlot(t, blocks, b, e) && EntryOf(Slot(t, blocks, b, e)) == x && !UsedSlot(s, before, b, e)
    && AllUsed(s, before, b) && (forall f: nat :: f < e ==> UsedSlot(s, before, b, f))
    && SlotsStay(s, before, t, blocks)
  }

  /**
   The directory after a successful add: the same map with the entry in it. Its inode is as
   before if some slot was unused, and otherwise has one more block and the size of it.
   */
  ghost predicate Added(l: Layout, s: Store, t: Store, dir: nat, x: Entry, n: nat) {
    && Fitting(l, s) && Fitting(l, t) && IsInode(l, dir)
    && var i, j := InodeAt(l, s, dir), InodeAt(l, t, dir);
       && OneInode(l, s, t, dir, j.blocks)
       && OwnChange(l, s, t, i.blocks, j.blocks)
       && InStore(s, i.blocks) && InStore(t, j.blocks)
       && (if AllUsed(s, i.blocks, n)
           then n < NDIR && DirOk(t, j, n + 1) && j == i.(blocks := i.blocks[n := j.blocks[n]], size := j.size)
                && j.size == i.size + 4096
           else DirOk(t, j, n) && j == i)
       && Graph(t, j.blocks) == Graph(s, i.blocks) + {x}
       && exists b: nat, e: nat :: Placed(s, i.blocks, t, j.blocks, b, e, x)
  }

  /** The loop over blocks. */
  method Insert(fs: FileSystem, dir: nat, i: Inode, name: Name, ino: u32, fileType: byte,
                ghost live: set<nat>, ghost n: nat)
    returns (status: Status)
    requires Owned(fs.l, fs.store, live) && dir in live && i == InodeAt(fs.l, fs.store, dir) && DirOk(fs.store, i, n)
    requires GoodName(name) && ino != 0 && forall x :: x in Graph(fs.store, i.blocks) ==> x.name != name
    modifies fs
    ensures fs.Valid() && Owned(fs.l, fs.store, live) && (status == Ok || status == NoSpace)
    ensures InStore(old(fs.store), i.blocks) && (status == NoSpace <==> Full(fs.l, old(fs.store), i.blocks, n))
    ensures status == NoSpace ==> fs.store == old(fs.store)
    ensures status == Ok ==> Added(fs.l, old(fs.store), fs.store, dir, Entry(name, ino, fileType), n)
  {
    hide InodeAt, DirentAt, Slot, Graph, Marked, UsedSlot, WithInode, OneInode, Owned, Added, SlotsOk;
    OwnedDir(fs.l, fs.store, live, dir, i, n);
    var b := 0;
    while b < NDIR
      invariant b <= NDIR && fs.store == old(fs.store) && b <= n && AllUsed(fs.store, i.blocks, b)
    {
      if i.blocks[b] == 0 {
        status := InsertInNew(fs, dir, i, b, name, ino, fileType, live);
        return;
      }
      var found, e := FreeSlot(fs, i.blocks, b);
      if found {
        InsertAt(fs, dir, i, b, e, name, ino, fileType, live, n);
        return Ok;
      }
      b := b + 1;
    }
    status := NoSpace;
  }

  lemma OwnedDir(l: Layout, s: Store, live: set<nat>, dir: nat, i: Inode, n: nat)
    requires Owned(l, s, live) && dir in live && i == InodeAt(l, s, dir) && DirOk(s, i, n)
    ensures Fitting(l, s) && IsInode(l, dir) && InStore(s, i.blocks) && BlocksOk(l, s, i.blocks) && i.size <= CAP
    ensures forall k, m :: 0 <= k < m < NDIR && i.blocks[k] != 0 ==> i.blocks[k] != i.blocks[m]
  {
    hide InodeAt, Marked;
  }

  /** Into an unused slot of a block the directory has. */
  method InsertAt(fs: FileSystem, dir: nat, i: Inode, b: nat, e: nat, name: Name, ino: u32, fileType: byte,
                  ghost live: set<nat>, ghost n: nat)
    requires Owned(fs.l, fs.store, live) && dir in live && i == InodeAt(fs.l, fs.store, dir) && DirOk(fs.store, i, n)
    requires GoodName(name) && ino != 0 && forall x :: x in Graph(fs.store, i.blocks) ==> x.name != name
    requires b < NDIR && b < n && e < DIRENTS && i.blocks[b] != 0 && !UsedSlot(fs.store, i.blocks, b, e)
    requires AllUsed(fs.store, i.blocks, b) && forall f: nat :: f < e ==> UsedSlot(fs.store, i.blocks, b, f)
    modifies fs
    ensures fs.Valid() && Owned(fs.l, fs.store, live)
    ensures Added(fs.l, old(fs.store), fs.store, dir, Entry(name, ino, fileType), n)
  {
    hide InodeAt, DirentAt, Slot, Graph, Marked, UsedSlot;
    ghost var s := fs.store;
    OwnedDir(fs.l, s, live, dir, i, n);
    NothingDone(fs.l, s, i.blocks);
    SetSlot(fs, i.blocks, b, e, name, ino, fileType);
    FillBlock(fs.l, s, s, i.blocks, i.blocks, b, fs.store[i.blocks[b]]);
    Abandon(fs.l, s, fs.store, live, dir, i.blocks);
    assert Placed(s, i.blocks, fs.store, i.blocks, b, e, Entry(name, ino, fileType));
  }

  /** Into the first slot of a fresh block, which may hold anything and is cleared first. */
  method InsertInNew(fs: FileSystem, dir: nat, i: Inode, b: nat, name: Name, ino: u32, fileType: byte,
                     ghost live: set<nat>)
    returns (status: Status)
    requires Owned(fs.l, fs.store, live) && dir in live && i == InodeAt(fs.l, fs.store, dir) && DirOk(fs.store, i, b)
    requires GoodName(name) && ino != 0 && forall x :: x in Graph(fs.store, i.blocks) ==> x.name != name
    requires b < NDIR && i.blocks[b] == 0 && AllUsed(fs.store, i.blocks, b)
    modifies fs
    ensures fs.Valid() && Owned(fs.l, fs.store, live) && (status == Ok || status == NoSpace)
    ensures status == NoSpace ==> fs.store == old(fs.store)
    ensures status == NoSpace <==> forall c: nat :: IsData(fs.l, c) ==> Marked(fs.l, old(fs.store), c)
    ensures status == Ok ==> Added(fs.l, old(fs.store), fs.store, dir, Entry(name, ino, fileType), b)
  {
    hide InodeAt, DirentAt, Slot, Graph, Marked, UsedSlot, WithInode, SlotsOk, OneInode;
    ghost var s := fs.store;
    OwnedDir(fs.l, s, live, dir, i, b);
    NothingDone(fs.l, s, i.blocks);
    var ok, blocks := fs.Claim(s, i.blocks, i.blocks, b);
    if !ok {
      return NoSpace;
    }
    ghost var claimed := fs.store;
    FillBlock(fs.l, s, claimed, i.blocks, blocks, b, ZEROS);
    fs.store := fs.store[blocks[b] := ZEROS];
    ghost var cleared := fs.store;
    NewBlockEmpty(fs.l, s, claimed, cleared, i.blocks, blocks, b);
    SetSlot(fs, blocks, b, 0, name, ino, fileType);
    FillBlock(fs.l, s, cleared, i.blocks, blocks, b, fs.store[blocks[b]]);
    ghost var filled := fs.store;
    var j := i.(blocks := blocks, size := i.size + 4096);
    fs.store := WithInode(fs.l, fs.store, dir, j);
    Finish(fs.l, s, filled, live, dir, j);
    BytesElsewhere(fs.l, filled, fs.store, blocks);
    SameGraph(filled, fs.store, blocks);
    SlotsStayOn(s, i.blocks, cleared, filled, fs.store, blocks);
    assert Placed(s, i.blocks, fs.store, blocks, b, 0, Entry(name, ino, fileType));
    status := Ok;
  }
}
