/**
 What recovery makes of a disk image: the transactions it accepts, the copies its second
 pass installs, and the home content that leaves behind. Includes crashes during recovery.
 */
module Replay {
  import opened Bytes
  import opened DiskFormat
  import opened Device
  import opened LogFormat

  datatype Option<+T> = None | Some(value: T)

  function AllRevokes(txns: seq<Txn>): seq<Revoke> {
    if txns == [] then [] else txns[0].revokes + AllRevokes(txns[1..])
  }

  /** A revoke of block b with a larger number than the transaction that logged it. */
  predicate Revoked(revs: seq<Revoke>, b: nat, sequence: nat) {
    exists r :: 0 <= r < |revs| && revs[r].target == b && revs[r].sequence > sequence
  }

  /** The last copy of block b: the last tag wins. */
  function LastCopy(copies: seq<Copy>, b: nat): Option<Block>
    decreases |copies|
  {
    if copies == [] then None
    else if copies[|copies| - 1].target == b then Some(copies[|copies| - 1].data)
    else LastCopy(copies[..|copies| - 1], b)
  }

  /** The copies of one transaction that no revoke cancels, in order. */
  function Survivors(copies: seq<Copy>, sequence: nat, revs: seq<Revoke>): seq<Copy> {
    if copies == [] then []
    else (if Revoked(revs, copies[0].target, sequence) then [] else [copies[0]])
         + Survivors(copies[1..], sequence, revs)
  }

  /** Everything the second pass installs, in order. */
  function Installs(txns: seq<Txn>, revs: seq<Revoke>): seq<Copy> {
    if txns == [] then []
    else Survivors(txns[0].copies, txns[0].sequence, revs) + Installs(txns[1..], revs)
  }

  lemma {:induction false} InstallsConcat(a: seq<Txn>, c: seq<Txn>, revs: seq<Revoke>)
    ensures Installs(a + c, revs) == Installs(a, revs) + Installs(c, revs)
    decreases |a|
  {
    if a == [] {
      assert a + c == c;
    } else {
      assert (a + c)[1..] == a[1..] + c;
      InstallsConcat(a[1..], c, revs);
    }
  }

  lemma {:induction false} SurvivorsConcat(a: seq<Copy>, c: seq<Copy>, sequence: nat, revs: seq<Revoke>)
    ensures Survivors(a + c, sequence, revs) == Survivors(a, sequence, revs) + Survivors(c, sequence, revs)
    decreases |a|
  {
    if a == [] {
      assert a + c == c;
    } else {
      assert (a + c)[1..] == a[1..] + c;
      SurvivorsConcat(a[1..], c, sequence, revs);
    }
  }

  // ---- which revokes cancel a copy, by position ----

  lemma {:induction false} AllRevokesFrom(txns: seq<Txn>, r: Revoke)
    ensures r in AllRevokes(txns) <==> exists j :: 0 <= j < |txns| && r in txns[j].revokes
  {
    if txns != [] {
      AllRevokesFrom(txns[1..], r);
      if j :| 0 <= j < |txns| && r in txns[j].revokes {
        assert j > 0 ==> r in txns[1..][j - 1].revokes;
      }
      if j :| 0 <= j < |txns[1..]| && r in txns[1..][j].revokes {
        assert r in txns[j + 1].revokes;
      }
    }
  }

  /** A transaction of the log behind number i revokes block b. */
  ghost predicate RevokedBehind(txns: seq<Txn>, b: nat, i: nat) {
    exists j, k :: i < j < |txns| && 0 <= k < |txns[j].revokes| && txns[j].revokes[k].target == b
  }

  lemma NumberAt(txns: seq<Txn>, want: nat, i: nat)
    requires Consecutive(txns, want) && want + |txns| <= U64 && i < |txns|
    ensures txns[i].sequence == want + i
  {
    assert txns[i].sequence == (want + i) % U64;
  }

  /**
   In a log whose numbers do not wrap, exactly the revokes of later transactions cancel the
   copies of a transaction: none of its own, none of an earlier one.
   */
  lemma {:induction false} RevokedByPosition(txns: seq<Txn>, want: nat, b: nat, i: nat)
    requires AllEncodable(txns) && Consecutive(txns, want) && want + |txns| <= U64 && i < |txns|
    ensures Revoked(AllRevokes(txns), b, txns[i].sequence) <==> RevokedBehind(txns, b, i)
  {
    hide Consecutive, AllRevokes;
    var revs := AllRevokes(txns);
    NumberAt(txns, want, i);
    if Revoked(revs, b, txns[i].sequence) {
      var r :| 0 <= r < |revs| && revs[r].target == b && revs[r].sequence > txns[i].sequence;
      AllRevokesFrom(txns, revs[r]);
      var j :| 0 <= j < |txns| && revs[r] in txns[j].revokes;
      NumberAt(txns, want, j);
    }
    if RevokedBehind(txns, b, i) {
      var j, k :| i < j < |txns| && 0 <= k < |txns[j].revokes| && txns[j].revokes[k].target == b;
      NumberAt(txns, want, j);
      AllRevokesFrom(txns, txns[j].revokes[k]);
    }
  }

  // ---- what the second pass should leave in a block ----

  /**
   Copy k of transaction i decides block b: it is a copy of b that no revoke cancels, and
   every later copy of b, in the same transaction or a later one, is cancelled.
   */
  ghost predicate Decides(txns: seq<Txn>, revs: seq<Revoke>, b: nat, i: nat, k: nat) {
    && i < |txns| && k < |txns[i].copies|
    && txns[i].copies[k].target == b
    && !Revoked(revs, b, txns[i].sequence)
    && (forall m :: k < m < |txns[i].copies| ==> txns[i].copies[m].target != b)
    && (forall j, m :: i < j < |txns| && 0 <= m < |txns[j].copies| && txns[j].copies[m].target == b
          ==> Revoked(revs, b, txns[j].sequence))
  }

  /** No copy of block b survives. */
  ghost predicate Undecided(txns: seq<Txn>, revs: seq<Revoke>, b: nat) {
    forall j, m :: 0 <= j < |txns| && 0 <= m < |txns[j].copies| && txns[j].copies[m].target == b
      ==> Revoked(revs, b, txns[j].sequence)
  }

  lemma {:induction false} LastCopyConcat(a: seq<Copy>, c: seq<Copy>, b: nat)
    ensures LastCopy(a + c, b) == if LastCopy(c, b).Some? then LastCopy(c, b) else LastCopy(a, b)
    decreases |c|
  {
    if c == [] {
      assert a + c == a;
    } else {
      assert (a + c)[..|a + c| - 1] == a + c[..|c| - 1];
      LastCopyConcat(a, c[..|c| - 1], b);
    }
  }

  lemma {:induction false} LastCopyIndex(copies: seq<Copy>, b: nat)
    ensures LastCopy(copies, b).None? <==> forall k :: 0 <= k < |copies| ==> copies[k].target != b
    ensures forall k :: 0 <= k < |copies| && copies[k].target == b
              && (forall m :: k < m < |copies| ==> copies[m].target != b)
              ==> LastCopy(copies, b) == Some(copies[k].data)
    decreases |copies|
  {
    if copies != [] {
      var front := copies[..|copies| - 1];
      LastCopyIndex(front, b);
      forall k | 0 <= k < |front| ensures front[k] == copies[k] {
      }
    }
  }

  lemma {:induction false} SurvivorsLast(copies: seq<Copy>, sequence: nat, revs: seq<Revoke>, b: nat)
    ensures LastCopy(Survivors(copies, sequence, revs), b)
         == if Revoked(revs, b, sequence) then None else LastCopy(copies, b)
  {
    if copies != [] {
      var c := copies[0];
      assert copies == [c] + copies[1..];
      SurvivorsLast(copies[1..], sequence, revs, b);
      LastCopyConcat([c], copies[1..], b);
      var kept := if Revoked(revs, c.target, sequence) then [] else [c];
      LastCopyConcat(kept, Survivors(copies[1..], sequence, revs), b);
      assert [c][..0] == [];
    }
  }

  lemma {:induction false} InstallsLast(txns: seq<Txn>, revs: seq<Revoke>, b: nat)
    ensures Undecided(txns, revs, b) ==> LastCopy(Installs(txns, revs), b) == None
    ensures forall i: nat, k: nat :: Decides(txns, revs, b, i, k)
              ==> LastCopy(Installs(txns, revs), b) == Some(txns[i].copies[k].data)
  {
    if txns != [] {
      var t, rest := txns[0], txns[1..];
      InstallsLast(rest, revs, b);
      SurvivorsLast(t.copies, t.sequence, revs, b);
      LastCopyIndex(t.copies, b);
      LastCopyConcat(Survivors(t.copies, t.sequence, revs), Installs(rest, revs), b);
      if Undecided(txns, revs, b) {
        UndecidedTail(txns, revs, b);
      }
      forall i: nat, k: nat | Decides(txns, revs, b, i, k)
        ensures LastCopy(Installs(txns, revs), b) == Some(txns[i].copies[k].data)
      {
        DecidesTail(txns, revs, b, i, k);
      }
    }
  }

  lemma {:induction false} UndecidedTail(txns: seq<Txn>, revs: seq<Revoke>, b: nat)
    requires txns != [] && Undecided(txns, revs, b)
    ensures Undecided(txns[1..], revs, b)
    ensures Revoked(revs, b, txns[0].sequence) || LastCopy(txns[0].copies, b).None?
  {
    LastCopyIndex(txns[0].copies, b);
    forall j, m | 0 <= j < |txns[1..]| && 0 <= m < |txns[1..][j].copies| && txns[1..][j].copies[m].target == b
      ensures Revoked(revs, b, txns[1..][j].sequence)
    {
      assert txns[1..][j] == txns[j + 1];
    }
  }

  lemma DecidesTail(txns: seq<Txn>, revs: seq<Revoke>, b: nat, i: nat, k: nat)
    requires txns != [] && Decides(txns, revs, b, i, k)
    ensures i > 0 ==> Decides(txns[1..], revs, b, i - 1, k)
    ensures i == 0 ==> Undecided(txns[1..], revs, b)
  {
    forall j, m | 0 <= j < |txns[1..]| && 0 <= m < |txns[1..][j].copies| && txns[1..][j].copies[m].target == b
      ensures j >= i ==> Revoked(revs, b, txns[1..][j].sequence)
    {
      assert txns[1..][j] == txns[j + 1];
    }
  }

  lemma {:induction false} SomeDecision(txns: seq<Txn>, revs: seq<Revoke>, b: nat) returns (i: nat, k: nat)
    requires !Undecided(txns, revs, b)
    ensures Decides(txns, revs, b, i, k)
  {
    var last := txns[|txns| - 1];
    var front := txns[..|txns| - 1];
    LastCopyIndex(last.copies, b);
    if !Revoked(revs, b, last.sequence) && LastCopy(last.copies, b).Some? {
      i := |txns| - 1;
      k := LastIndex(last.copies, b);
    } else {
      var j, m :| 0 <= j < |txns| && 0 <= m < |txns[j].copies| && txns[j].copies[m].target == b
                  && !Revoked(revs, b, txns[j].sequence);
      assert front[j] == txns[j];
      i, k := SomeDecision(front, revs, b);
      forall j, m | i < j < |txns| && 0 <= m < |txns[j].copies| && txns[j].copies[m].target == b
        ensures Revoked(revs, b, txns[j].sequence)
      {
        if j < |front| {
          assert front[j] == txns[j];
        }
      }
    }
  }

  lemma {:induction false} LastIndex(copies: seq<Copy>, b: nat) returns (k: nat)
    requires LastCopy(copies, b).Some?
    ensures k < |copies| && copies[k].target == b && forall m :: k < m < |copies| ==> copies[m].target != b
    decreases |copies|
  {
    if copies[|copies| - 1].target == b {
      k := |copies| - 1;
    } else {
      k := LastIndex(copies[..|copies| - 1], b);
    }
  }

  /**
   The two-pass rule: a block some copy decides ends as that copy, and a block is decided
   unless every copy of it is revoked, in which case nothing is installed over it.
   */
  lemma {:induction false} ReplayMeetsSpec(txns: seq<Txn>, revs: seq<Revoke>, b: nat)
    ensures forall i: nat, k: nat :: Decides(txns, revs, b, i, k)
              ==> LastCopy(Installs(txns, revs), b) == Some(txns[i].copies[k].data)
    ensures (exists i: nat, k: nat :: Decides(txns, revs, b, i, k)) <==> !Undecided(txns, revs, b)
    ensures LastCopy(Installs(txns, revs), b) == None <==> Undecided(txns, revs, b)
  {
    InstallsLast(txns, revs, b);
    if !Undecided(txns, revs, b) {
      var i, k := SomeDecision(txns, revs, b);
      assert Decides(txns, revs, b, i, k);
    }
  }

  // ---- recovery of an image ----

  /** The transactions recovery replays; the scan bound is one more than it can accept. */
  function RecoveredTxns(img: Image, g: Geometry): seq<Txn>
    requires Fits(g, |img|)
  {
    if SuperStart(img[JSUPER]) == EMPTY then []
    else Scan(img, g, SuperStart(img[JSUPER]), SuperSequence(img[JSUPER]), g.maxlen + 1)
  }

  /** The sequence number recovery hands to the next commit. */
  function RecoveredNext(img: Image, g: Geometry): nat
    requires Fits(g, |img|)
  {
    if SuperStart(img[JSUPER]) == EMPTY then 1 else
    var txns := RecoveredTxns(img, g);
    if txns == [] then (if SuperSequence(img[JSUPER]) == 0 then 1 else SuperSequence(img[JSUPER]))
    else txns[|txns| - 1].sequence + 1
  }

  /** Where the head and tail stand after recovery. */
  function RecoveredHead(img: Image, g: Geometry): nat
    requires Fits(g, |img|)
  {
    if SuperStart(img[JSUPER]) == EMPTY then 0
    else ScanEnd(img, g, SuperStart(img[JSUPER]), SuperSequence(img[JSUPER]), g.maxlen + 1)
  }

  /** Block b after the copies have been installed. */
  function Overlaid(img: Image, copies: seq<Copy>, b: nat): Block
    requires b < |img|
  {
    var c := LastCopy(copies, b);
    if c.Some? then c.value else img[b]
  }

  function Replayed(txns: seq<Txn>): seq<Copy> {
    Installs(txns, AllRevokes(txns))
  }

  /** Home block b as a mount after a crash with this image sees it. */
  function RecoveredBlock(img: Image, g: Geometry, b: nat): Block
    requires Fits(g, |img|) && b < |img|
  {
    Overlaid(img, Replayed(RecoveredTxns(img, g)), b)
  }

  // ---- replay without revokes ----

  /** The copy of b in the newest transaction that logs it. */
  function NewestCopy(txns: seq<Txn>, b: nat): Option<Block>
    decreases |txns|
  {
    if txns == [] then None else
    var c := LastCopy(txns[|txns| - 1].copies, b);
    if c.Some? then c else NewestCopy(txns[..|txns| - 1], b)
  }

  ghost predicate NoRevokes(txns: seq<Txn>) {
    forall i :: 0 <= i < |txns| ==> txns[i].revokes == []
  }

  lemma {:induction false} AllRevokesNone(txns: seq<Txn>)
    requires NoRevokes(txns)
    ensures AllRevokes(txns) == []
  {
    if txns != [] {
      AllRevokesNone(txns[1..]);
    }
  }

  lemma {:induction false} SurvivorsAll(copies: seq<Copy>, sequence: nat)
    ensures Survivors(copies, sequence, []) == copies
  {
    if copies != [] {
      SurvivorsAll(copies[1..], sequence);
    }
  }

  /** Without revokes the second pass installs the newest copy of every block. */
  lemma {:induction false} PlainReplay(txns: seq<Txn>, b: nat)
    requires NoRevokes(txns)
    ensures LastCopy(Replayed(txns), b) == NewestCopy(txns, b)
    decreases |txns|
  {
    AllRevokesNone(txns);
    if txns != [] {
      var front, t := txns[..|txns| - 1], txns[|txns| - 1];
      assert txns == front + [t];
      AllRevokesNone(front);
      PlainReplay(front, b);
      InstallsConcat(front, [t], []);
      SurvivorsAll(t.copies, t.sequence);
      assert [t][1..] == [] && Installs([t], []) == t.copies;
      LastCopyConcat(Installs(front, []), t.copies, b);
    }
  }

  lemma {:induction false} NewestSnoc(txns: seq<Txn>, t: Txn, b: nat)
    ensures NewestCopy(txns + [t], b)
         == if LastCopy(t.copies, b).Some? then LastCopy(t.copies, b) else NewestCopy(txns, b)
  {
    assert (txns + [t])[..|txns|] == txns;
  }

  lemma {:induction false} NewestCons(t: Txn, txns: seq<Txn>, b: nat)
    ensures NewestCopy([t] + txns, b)
         == if NewestCopy(txns, b).Some? then NewestCopy(txns, b) else LastCopy(t.copies, b)
    decreases |txns|
  {
    var all := [t] + txns;
    if txns == [] {
      assert all[..0] == [];
    } else {
      assert all[..|all| - 1] == [t] + txns[..|txns| - 1];
      NewestCons(t, txns[..|txns| - 1], b);
    }
  }

  // ---- the installs as device operations ----

  function InstallOps(copies: seq<Copy>): (ops: seq<Op>)
    ensures |ops| == |copies|
    ensures forall i :: 0 <= i < |ops| ==> ops[i] == Write(copies[i].target, copies[i].data)
  {
    seq(|copies|, i requires 0 <= i < |copies| => Write(copies[i].target, copies[i].data))
  }

  lemma RunSnoc(d: Disk, ops: seq<Op>, op: Op)
    ensures Run(d, ops + [op]) == Do(Run(d, ops), op)
  {
    assert d.log + (ops + [op]) == d.log + ops + [op];
  }

  /** Reads during the installs see the last copy installed so far. */
  lemma {:induction false} InstallView(d: Disk, copies: seq<Copy>, b: nat)
    requires b < |d.base|
    ensures View(Run(d, InstallOps(copies)), b)
         == if LastCopy(copies, b).Some? then LastCopy(copies, b).value else View(d, b)
    decreases |copies|
  {
    if copies == [] {
      assert Run(d, InstallOps(copies)) == d;
    } else {
      var front, c := copies[..|copies| - 1], copies[|copies| - 1];
      assert InstallOps(copies) == InstallOps(front) + [Write(c.target, c.data)];
      RunSnoc(d, InstallOps(front), Write(c.target, c.data));
      DoView(Run(d, InstallOps(front)), Write(c.target, c.data), b);
      InstallView(d, front, b);
    }
  }

  ghost predicate HasCopy(copies: seq<Copy>, b: nat, v: Block) {
    exists i :: 0 <= i < |copies| && copies[i].target == b && copies[i].data == v
  }

  /** A crash during the installs leaves a block alone or with one of its copies. */
  lemma {:induction false} InstallMay(d: Disk, copies: seq<Copy>, b: nat, v: Block)
    requires b < |d.base|
    ensures May(Run(d, InstallOps(copies)), b, v)
       <==> (May(d, b, v) || HasCopy(copies, b, v))
    decreases |copies|
  {
    if copies == [] {
      assert Run(d, InstallOps(copies)) == d;
    } else {
      var front, c := copies[..|copies| - 1], copies[|copies| - 1];
      assert InstallOps(copies) == InstallOps(front) + [Write(c.target, c.data)];
      RunSnoc(d, InstallOps(front), Write(c.target, c.data));
      DoMay(Run(d, InstallOps(front)), Write(c.target, c.data), b, v);
      InstallMay(d, front, b, v);
      if HasCopy(front, b, v) {
        var i :| 0 <= i < |front| && front[i].target == b && front[i].data == v;
        assert copies[i].target == b && copies[i].data == v;
      }
    }
  }

  // ---- crashes during recovery ----

  ghost predicate TargetsHome(txns: seq<Txn>, g: Geometry, nblocks: nat) {
    forall i, k :: 0 <= i < |txns| && 0 <= k < |txns[i].copies| ==> IsHome(g, nblocks, txns[i].copies[k].target)
  }

  ghost predicate CopiesHome(copies: seq<Copy>, g: Geometry, nblocks: nat) {
    forall k :: 0 <= k < |copies| ==> IsHome(g, nblocks, copies[k].target)
  }

  lemma {:induction false} SurvivorsHome(copies: seq<Copy>, sequence: nat, revs: seq<Revoke>, g: Geometry, nblocks: nat)
    requires CopiesHome(copies, g, nblocks)
    ensures CopiesHome(Survivors(copies, sequence, revs), g, nblocks)
  {
    if copies != [] {
      SurvivorsHome(copies[1..], sequence, revs, g, nblocks);
    }
  }

  lemma {:induction false} InstallsHome(txns: seq<Txn>, revs: seq<Revoke>, g: Geometry, nblocks: nat)
    requires TargetsHome(txns, g, nblocks)
    ensures CopiesHome(Installs(txns, revs), g, nblocks)
  {
    if txns != [] {
      assert TargetsHome(txns[1..], g, nblocks) by {
        forall i, k | 0 <= i < |txns[1..]| && 0 <= k < |txns[1..][i].copies|
          ensures IsHome(g, nblocks, txns[1..][i].copies[k].target)
        {
          assert txns[1..][i] == txns[i + 1];
        }
      }
      InstallsHome(txns[1..], revs, g, nblocks);
      SurvivorsHome(txns[0].copies, txns[0].sequence, revs, g, nblocks);
    }
  }

  /** The two images agree on the journal superblock and the journal region. */
  ghost predicate SameLog(a: Image, b: Image, g: Geometry) {
    && Fits(g, |a|) && |a| == |b|
    && a[JSUPER] == b[JSUPER]
    && forall i :: g.first <= i < g.first + g.maxlen ==> a[i] == b[i]
  }

  lemma ParseSame(a: Image, b: Image, g: Geometry, off: nat, want: nat)
    requires SameLog(a, b, g)
    ensures ParseAt(a, g, off, want) == ParseAt(b, g, off, want)
  {
    hide PhysOf, ChecksumOf, Magic, Count, Sequence, IsCommit, Checksum, Entries, RevokeList;
    var n := Count(Slot(a, g, off));
    assert Slots(a, g, off + 1, n) == Slots(b, g, off + 1, n);
  }

  lemma {:induction false} ScanSame(a: Image, b: Image, g: Geometry, off: nat, want: nat, n: nat)
    requires SameLog(a, b, g)
    ensures Scan(a, g, off, want, n) == Scan(b, g, off, want, n)
    ensures ScanEnd(a, g, off, want, n) == ScanEnd(b, g, off, want, n)
    decreases n
  {
    hide PhysOf, ParseAt;
    if n > 0 {
      ParseSame(a, b, g, off, want);
      var p := ParseAt(a, g, off, want);
      if p.Parsed? {
        ScanSame(a, b, g, p.next, want + 1, n - 1);
      }
    }
  }

  lemma RecoveredSame(a: Image, b: Image, g: Geometry)
    requires SameLog(a, b, g)
    ensures RecoveredTxns(a, g) == RecoveredTxns(b, g)
    ensures RecoveredHead(a, g) == RecoveredHead(b, g) && RecoveredNext(a, g) == RecoveredNext(b, g)
  {
    hide PhysOf, SuperStart, SuperSequence, Scan, ScanEnd;
    ScanSame(a, b, g, SuperStart(a[JSUPER]), SuperSequence(a[JSUPER]), g.maxlen + 1);
  }

  /** The disk after recovery of img has issued the first k installs of its second pass. */
  function Replaying(img: Image, g: Geometry, k: nat): (d: Disk)
    requires Fits(g, |img|) && k <= |Replayed(RecoveredTxns(img, g))|
    ensures d.base == img
  {
    Run(Disk(img, []), InstallOps(Replayed(RecoveredTxns(img, g))[..k]))
  }

  lemma {:induction false} FreshDiskMay(img: Image, b: nat, v: Block)
    requires b < |img|
    ensures May(Disk(img, []), b, v) <==> v == img[b]
  {}

  /**
   A crash anywhere in the second pass, with any subset of its installs landed, changes
   nothing: recovering again sees the same transactions and ends with the same blocks.
   */
  lemma RestartConverges(img: Image, g: Geometry, k: nat, crashed: Image)
    requires Fits(g, |img|) && TargetsHome(RecoveredTxns(img, g), g, |img|)
    requires k <= |Replayed(RecoveredTxns(img, g))| && CrashImage(Replaying(img, g, k), crashed)
    ensures SameLog(img, crashed, g) && RecoveredTxns(crashed, g) == RecoveredTxns(img, g)
    ensures forall b :: 0 <= b < |img| ==> RecoveredBlock(crashed, g, b) == RecoveredBlock(img, g, b)
  {
    hide PhysOf, RecoveredTxns, Replayed, May;
    var txns := RecoveredTxns(img, g);
    var all := Replayed(txns);
    assert CopiesHome(all, g, |img|) by {
      ReplayedHome(txns, g, |img|);
    }
    forall b | 0 <= b < |img| ensures crashed[b] != img[b] ==> LastCopy(all, b).Some? && IsHome(g, |img|, b) {
      InstallMay(Disk(img, []), all[..k], b, crashed[b]);
      FreshDiskMay(img, b, crashed[b]);
      LastCopyIndex(all, b);
      if crashed[b] != img[b] {
        var i :| 0 <= i < k && all[..k][i].target == b;
        assert all[i].target == b;
      }
    }
    RecoveredSame(img, crashed, g);
  }

  lemma ReplayedHome(txns: seq<Txn>, g: Geometry, nblocks: nat)
    requires TargetsHome(txns, g, nblocks)
    ensures CopiesHome(Replayed(txns), g, nblocks)
  {
    InstallsHome(txns, AllRevokes(txns), g, nblocks);
  }

  ghost predicate CrashedAt(img: Image, g: Geometry, k: nat, crashed: Image)
    requires Fits(g, |img|)
  {
    k <= |Replayed(RecoveredTxns(img, g))| && CrashImage(Replaying(img, g, k), crashed)
  }

  /** However often recovery is interrupted, the next one ends where the first would have. */
  lemma {:induction false} RestartsConverge(images: seq<Image>, steps: seq<nat>, g: Geometry)
    requires images != [] && |steps| == |images| - 1
    requires forall i :: 0 <= i < |images| ==> Fits(g, |images[i]|) && |images[i]| == |images[0]|
    requires TargetsHome(RecoveredTxns(images[0], g), g, |images[0]|)
    requires forall i :: 0 <= i < |steps| ==> CrashedAt(images[i], g, steps[i], images[i + 1])
    ensures forall b :: 0 <= b < |images[0]|
              ==> (RecoveredBlock(images[|images| - 1], g, b) == RecoveredBlock(images[0], g, b))
    decreases |images|
  {
    hide PhysOf, RecoveredTxns, Replayed, RecoveredBlock, CrashImage, Fits;
    if |images| > 1 {
      assert CrashedAt(images[0], g, steps[0], images[0 + 1]);
      RestartConverges(images[0], g, steps[0], images[1]);
      RestartsConverge(images[1..], steps[1..], g);
    }
  }

  // ---- the superblock write that ends recovery ----

  /** The disk after recovery has issued its EMPTY superblock write, before the flush. */
  function Ending(img: Image, g: Geometry, super: Block): (d: Disk)
    requires Fits(g, |img|)
    ensures d.base == img
  {
    Do(Run(Disk(img, []), InstallOps(Replayed(RecoveredTxns(img, g)))), Write(JSUPER, super))
  }

  lemma {:induction false} EndingMay(img: Image, g: Geometry, super: Block, b: nat, v: Block)
    requires Fits(g, |img|) && b < |img|
    ensures May(Ending(img, g, super), b, v)
       <==> (v == img[b] || (b == JSUPER && v == super) || HasCopy(Replayed(RecoveredTxns(img, g)), b, v))
  {
    hide PhysOf, Replayed, RecoveredTxns;
    var all := Replayed(RecoveredTxns(img, g));
    DoMay(Run(Disk(img, []), InstallOps(all)), Write(JSUPER, super), b, v);
    InstallMay(Disk(img, []), all, b, v);
    FreshDiskMay(img, b, v);
  }

  /** Every copy recovery installs is already at home. */
  ghost predicate NothingToInstall(img: Image, g: Geometry)
    requires Fits(g, |img|)
  {
    var all := Replayed(RecoveredTxns(img, g));
    forall i :: 0 <= i < |all| && all[i].target < |img| ==> img[all[i].target] == all[i].data
  }

  ghost predicate EndingSafe(img: Image, g: Geometry, super: Block)
    requires Fits(g, |img|)
  {
    forall crashed: Image, b :: CrashImage(Ending(img, g, super), crashed) && IsHome(g, |img|, b)
      ==> RecoveredBlock(crashed, g, b) == RecoveredBlock(img, g, b)
  }

  lemma EmptyRecoversNothing(img: Image, g: Geometry, b: nat)
    requires Fits(g, |img|) && b < |img| && SuperStart(img[JSUPER]) == EMPTY
    ensures RecoveredTxns(img, g) == [] && RecoveredBlock(img, g, b) == img[b]
  {
    hide PhysOf, SuperStart;
    assert Replayed([]) == [];
  }

  /**
   Recovery ends with one write of an EMPTY superblock that no flush separates from the
   installs. A crash then is harmless if and only if there was nothing to install.
   */
  lemma RecoveryEnding(img: Image, g: Geometry, super: Block)
    requires Fits(g, |img|) && TargetsHome(RecoveredTxns(img, g), g, |img|)
    requires SuperStart(super) == EMPTY
    ensures EndingSafe(img, g, super) <==> NothingToInstall(img, g)
  {
    hide PhysOf, SuperStart, Replayed, RecoveredTxns, RecoveredBlock, Ending;
    if NothingToInstall(img, g) {
      forall crashed: Image, b | CrashImage(Ending(img, g, super), crashed) && IsHome(g, |img|, b)
        ensures RecoveredBlock(crashed, g, b) == RecoveredBlock(img, g, b)
      {
        EndingHarmless(img, g, super, crashed, b);
      }
    } else {
      var all := Replayed(RecoveredTxns(img, g));
      var i :| 0 <= i < |all| && all[i].target < |img| && img[all[i].target] != all[i].data;
      var crashed := EndingHarm(img, g, super, i);
    }
  }

  lemma EndingHarmless(img: Image, g: Geometry, super: Block, crashed: Image, b: nat)
    requires Fits(g, |img|) && TargetsHome(RecoveredTxns(img, g), g, |img|)
    requires SuperStart(super) == EMPTY && NothingToInstall(img, g)
    requires CrashImage(Ending(img, g, super), crashed) && IsHome(g, |img|, b)
    ensures RecoveredBlock(crashed, g, b) == RecoveredBlock(img, g, b)
  {
    hide PhysOf, SuperStart, RecoveredTxns, Replayed, Ending;
    var all := Replayed(RecoveredTxns(img, g));
    ReplayedHome(RecoveredTxns(img, g), g, |img|);
    forall c | 0 <= c < |img| && c != JSUPER ensures crashed[c] == img[c] {
      EndingMay(img, g, super, c, crashed[c]);
    }
    LastCopyIndex(all, b);
    if LastCopy(all, b).Some? {
      var k := LastIndex(all, b);
      assert LastCopy(all, b) == Some(all[k].data);
    }
    assert RecoveredBlock(img, g, b) == img[b];
    EndingMay(img, g, super, JSUPER, crashed[JSUPER]);
    if crashed[JSUPER] == super {
      EmptyRecoversNothing(crashed, g, b);
    } else {
      assert crashed[JSUPER] == img[JSUPER];
      RecoveredSame(img, crashed, g);
    }
  }

  /** Whichever of the two values the block should have, a crash can leave the other. */
  lemma EndingHarm(img: Image, g: Geometry, super: Block, i: nat) returns (crashed: Image)
    requires Fits(g, |img|) && TargetsHome(RecoveredTxns(img, g), g, |img|)
    requires SuperStart(super) == EMPTY
    requires i < |Replayed(RecoveredTxns(img, g))|
    requires Replayed(RecoveredTxns(img, g))[i].target < |img|
    requires var c := Replayed(RecoveredTxns(img, g))[i]; img[c.target] != c.data
    ensures CrashImage(Ending(img, g, super), crashed)
    ensures var b := Replayed(RecoveredTxns(img, g))[i].target;
            IsHome(g, |img|, b) && RecoveredBlock(crashed, g, b) != RecoveredBlock(img, g, b)
  {
    hide PhysOf, SuperStart, RecoveredTxns, Replayed, Ending, RecoveredBlock;
    var c := Replayed(RecoveredTxns(img, g))[i];
    ReplayedHome(RecoveredTxns(img, g), g, |img|);
    crashed := img[JSUPER := super];
    if RecoveredBlock(img, g, c.target) == img[c.target] {
      crashed := crashed[c.target := c.data];
    }
    forall b | 0 <= b < |img| ensures May(Ending(img, g, super), b, crashed[b]) {
      EndingMay(img, g, super, b, crashed[b]);
    }
    EmptyRecoversNothing(crashed, g, c.target);
  }
}
