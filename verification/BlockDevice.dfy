/**
 The block device with a volatile write cache. A disk is its content when the session
 began and every write and flush issued since. Reads see the newest write; a crash leaves
 each block with what the last flush made durable or with any write issued after it.
 */
module Device {
  import opened DiskFormat

  datatype Op = Write(blockno: nat, data: Block) | Flush

  datatype Disk = Disk(base: seq<Block>, log: seq<Op>)

  ghost predicate InRange(d: Disk) {
    forall i :: 0 <= i < |d.log| && d.log[i].Write? ==> d.log[i].blockno < |d.base|
  }

  function Do(d: Disk, op: Op): Disk {
    Disk(d.base, d.log + [op])
  }

  function Run(d: Disk, ops: seq<Op>): Disk {
    Disk(d.base, d.log + ops)
  }

  /** The disk before its last operation. */
  function Undo(d: Disk): Disk
    requires d.log != []
  {
    Disk(d.base, d.log[..|d.log| - 1])
  }

  function Last(d: Disk): Op
    requires d.log != []
  {
    d.log[|d.log| - 1]
  }

  /** What a read of block b returns. */
  function View(d: Disk, b: nat): Block
    requires b < |d.base|
    decreases |d.log|
  {
    if d.log == [] then d.base[b]
    else if Last(d).Write? && Last(d).blockno == b then Last(d).data
    else View(Undo(d), b)
  }

  /** v is a value block b may hold after a crash. */
  ghost predicate May(d: Disk, b: nat, v: Block)
    requires b < |d.base|
    decreases |d.log|
  {
    if d.log == [] then v == d.base[b]
    else if Last(d).Flush? then v == View(Undo(d), b)
    else May(Undo(d), b, v) || Last(d) == Write(b, v)
  }

  ghost predicate CrashImage(d: Disk, img: seq<Block>) {
    |img| == |d.base| && forall b :: 0 <= b < |img| ==> May(d, b, img[b])
  }

  /** Block b holds v in every crash image. */
  ghost predicate Holds(d: Disk, b: nat, v: Block)
    requires b < |d.base|
  {
    forall w :: May(d, b, w) ==> w == v
  }

  lemma {:induction false} DoView(d: Disk, op: Op, b: nat)
    requires b < |d.base|
    ensures View(Do(d, op), b) == if op.Write? && op.blockno == b then op.data else View(d, b)
  {
    assert Undo(Do(d, op)) == d;
  }

  lemma {:induction false} DoMay(d: Disk, op: Op, b: nat, v: Block)
    requires b < |d.base|
    ensures May(Do(d, op), b, v) <==>
            if op.Flush? then v == View(d, b) else May(d, b, v) || op == Write(b, v)
  {
    assert Undo(Do(d, op)) == d;
  }

  lemma {:induction false} ViewMay(d: Disk, b: nat)
    requires b < |d.base|
    ensures May(d, b, View(d, b))
    decreases |d.log|
  {
    if d.log != [] && Last(d).Write? && Last(d).blockno != b {
      ViewMay(Undo(d), b);
    }
  }

  /** What is held in every crash image is also what a read returns. */
  lemma {:induction false} HeldView(d: Disk, b: nat, v: Block)
    requires b < |d.base| && Holds(d, b, v)
    ensures View(d, b) == v
  {
    ViewMay(d, b);
  }

  /** Operations on other blocks and flushes keep what block b holds. */
  lemma DoHolds(d: Disk, op: Op, b: nat, v: Block)
    requires b < |d.base| && Holds(d, b, v) && (op.Write? && op.blockno == b ==> op.data == v)
    ensures Holds(Do(d, op), b, v)
  {
    HeldView(d, b, v);
    forall w | May(Do(d, op), b, w) ensures w == v {
      DoMay(d, op, b, w);
    }
  }

  /** A flush makes what reads return the only possibility. */
  lemma {:induction false} FlushHolds(d: Disk, b: nat)
    requires b < |d.base|
    ensures Holds(Do(d, Flush), b, View(d, b))
  {
    forall w | May(Do(d, Flush), b, w) ensures w == View(d, b) {
      DoMay(d, Flush, b, w);
    }
  }

  predicate WritesTo(op: Op, b: nat) {
    op.Write? && op.blockno == b
  }

  predicate IsLastWrite(d: Disk, b: nat, i: nat) {
    i < |d.log| && WritesTo(d.log[i], b) && forall j :: i < j < |d.log| ==> !WritesTo(d.log[j], b)
  }

  /** A read returns the newest write, and without one what the session began with. */
  lemma {:induction false} ViewExact(d: Disk, b: nat)
    requires b < |d.base|
    ensures forall i: nat :: IsLastWrite(d, b, i) ==> View(d, b) == d.log[i].data
    ensures (forall i :: 0 <= i < |d.log| ==> !WritesTo(d.log[i], b)) ==> View(d, b) == d.base[b]
    decreases |d.log|
  {
    if d.log != [] && !WritesTo(Last(d), b) {
      ViewExact(Undo(d), b);
      forall i: nat | IsLastWrite(d, b, i) ensures IsLastWrite(Undo(d), b, i) {
      }
    }
  }

  /** The disk as of its last flush. */
  function Durable(d: Disk): (e: Disk)
    ensures e.base == d.base && e.log <= d.log
    decreases |d.log|
  {
    if d.log == [] || Last(d).Flush? then d else Durable(Undo(d))
  }

  lemma {:induction false} DurableExact(d: Disk)
    ensures var n := |Durable(d).log|;
            (n > 0 ==> d.log[n - 1].Flush?) && forall i :: n <= i < |d.log| ==> d.log[i].Write?
    decreases |d.log|
  {
    if d.log != [] && Last(d).Write? {
      DurableExact(Undo(d));
    }
  }

  /** Block b holds what was durable, or one of the writes issued since the last flush. */
  ghost predicate LeftBy(d: Disk, b: nat, v: Block)
    requires b < |d.base|
  {
    v == View(Durable(d), b) || exists i :: |Durable(d).log| <= i < |d.log| && d.log[i] == Write(b, v)
  }

  lemma {:induction false} MayExact(d: Disk, b: nat, v: Block)
    requires b < |d.base|
    ensures May(d, b, v) <==> LeftBy(d, b, v)
    decreases |d.log|
  {
    if d.log != [] && Last(d).Write? {
      MayExact(Undo(d), b, v);
      if Last(d) == Write(b, v) {
        assert d.log[|d.log| - 1] == Write(b, v);
      }
      if i :| |Durable(d).log| <= i < |Undo(d).log| && Undo(d).log[i] == Write(b, v) {
        assert d.log[i] == Write(b, v);
      }
      if i :| |Durable(d).log| <= i < |d.log| && d.log[i] == Write(b, v) {
        assert i < |Undo(d).log| ==> Undo(d).log[i] == Write(b, v);
      }
    }
  }

  /**
   What a crash can leave: in each block, whatever is in the others, the content as of the last
   flush or any of the writes issued since. Nothing else, and every combination of these.
   */
  lemma CrashExact(d: Disk, img: seq<Block>)
    ensures CrashImage(d, img) <==> |img| == |d.base| && forall b :: 0 <= b < |img| ==> LeftBy(d, b, img[b])
  {
    forall b, v | 0 <= b < |d.base| ensures May(d, b, v) <==> LeftBy(d, b, v) {
      MayExact(d, b, v);
    }
  }

  /** The write at log position i is followed by a flush. */
  ghost predicate Flushed(d: Disk, i: nat) {
    exists f :: i < f < |d.log| && d.log[f].Flush?
  }

  lemma {:induction false} ViewSince(d: Disk, i: nat)
    requires i < |d.log| && d.log[i].Write? && d.log[i].blockno < |d.base|
    ensures exists j :: i <= j < |d.log| && d.log[j] == Write(d.log[i].blockno, View(d, d.log[i].blockno))
    decreases |d.log|
  {
    var b := d.log[i].blockno;
    if Last(d).Write? && Last(d).blockno == b {
      assert d.log[|d.log| - 1] == Write(b, View(d, b));
    } else {
      ViewSince(Undo(d), i);
      var j :| i <= j < |d.log| - 1 && Undo(d).log[j] == Write(b, View(Undo(d), b));
      assert d.log[j] == Write(b, View(d, b));
    }
  }

  /**
   Once a write has been flushed, no crash can show anything older in its block: whatever
   the block holds was written by it or by a later write.
   */
  lemma {:induction false} FlushedIsFloor(d: Disk, i: nat, v: Block)
    requires i < |d.log| && d.log[i].Write? && d.log[i].blockno < |d.base| && Flushed(d, i)
    requires May(d, d.log[i].blockno, v)
    ensures exists j :: i <= j < |d.log| && d.log[j] == Write(d.log[i].blockno, v)
    decreases |d.log|
  {
    var b := d.log[i].blockno;
    var f :| i < f < |d.log| && d.log[f].Flush?;
    if Last(d).Flush? {
      ViewSince(Undo(d), i);
      var j :| i <= j < |d.log| - 1 && Undo(d).log[j] == Write(b, View(Undo(d), b));
      assert d.log[j] == Write(b, v);
    } else if Last(d) == Write(b, v) {
      assert d.log[|d.log| - 1] == Write(b, v);
    } else {
      assert Undo(d).log[f].Flush?;
      FlushedIsFloor(Undo(d), i, v);
      var j :| i <= j < |d.log| - 1 && Undo(d).log[j] == Write(b, v);
      assert d.log[j] == Write(b, v);
    }
  }

  /** The backing file: reads and writes go to its content, fsync makes them durable. */
  class BlockDevice {
    var content: seq<Block>
    ghost var disk: Disk

    ghost predicate Valid()
      reads this
    {
      && |content| == |disk.base|
      && InRange(disk)
      && forall b :: 0 <= b < |content| ==> content[b] == View(disk, b)
    }

    constructor (image: seq<Block>)
      ensures Valid() && disk == Disk(image, [])
    {
      content := image;
      disk := Disk(image, []);
    }

    method Read(blockno: nat) returns (ok: bool, data: Block)
      requires Valid()
      ensures ok <==> blockno < |disk.base|
      ensures ok ==> data == View(disk, blockno)
    {
      ok := blockno < |content|;
      if ok {
        data := content[blockno];
      } else {
        data := seq(4096, _ => 0);
      }
    }

    method WriteBlock(blockno: nat, data: Block) returns (ok: bool)
      requires Valid()
      modifies this
      ensures Valid()
      ensures ok <==> blockno < |old(disk).base|
      ensures disk == if ok then Do(old(disk), Write(blockno, data)) else old(disk)
    {
      ok := blockno < |content|;
      if ok {
        forall b | 0 <= b < |content| ensures View(Do(disk, Write(blockno, data)), b) == content[blockno := data][b] {
          DoView(disk, Write(blockno, data), b);
        }
        content := content[blockno := data];
        disk := Do(disk, Write(blockno, data));
      }
    }

    method Fsync()
      requires Valid()
      modifies this
      ensures Valid() && disk == Do(old(disk), Flush)
    {
      forall b | 0 <= b < |content| ensures View(Do(disk, Flush), b) == content[b] {
        DoView(disk, Flush, b);
      }
      disk := Do(disk, Flush);
    }

    method WriteFua(blockno: nat, data: Block) returns (ok: bool)
      requires Valid()
      modifies this
      ensures Valid()
      ensures ok <==> blockno < |old(disk).base|
      ensures disk == if ok then Run(old(disk), [Write(blockno, data), Flush]) else old(disk)
    {
      ok := WriteBlock(blockno, data);
      if ok {
        Fsync();
        assert old(disk).log + [Write(blockno, data)] + [Flush] == old(disk).log + [Write(blockno, data), Flush];
      }
    }
  }
}
