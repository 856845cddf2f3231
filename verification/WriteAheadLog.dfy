/** The redo log of log.c on the level of the disk: which blocks are written, in which
    order, and what a crash after any of those writes leaves behind.  Each block write is
    atomic, and a crash keeps the disk and loses memory. */
module WriteAheadLog {
  import opened Blocks

  const MAXOPBLOCKS := 10
  const LOGSIZE := 30

  type Disk = seq<Block>

  /** One block write, as issued by bwrite. */
  datatype Write = Write(addr: nat, data: Block)

  /** The log area: the header block at `start` and the log blocks after it. */
  datatype Layout = Layout(start: nat, size: nat, blocks: nat) {
    ghost predicate Valid() {
      0 < size && start + size <= blocks <= UINT_LIMIT
    }

    predicate Home(x: nat) {
      x < blocks && !(start <= x < start + size)
    }
  }

  // ---------- disk writes

  function ApplyWrite(d: Disk, w: Write): (r: Disk)
    ensures |r| == |d|
  {
    if w.addr < |d| then d[w.addr := w.data] else d
  }

  function Apply(d: Disk, ws: seq<Write>): (r: Disk)
    ensures |r| == |d|
  {
    if ws == [] then d else ApplyWrite(Apply(d, ws[..|ws|-1]), ws[|ws|-1])
  }

  lemma {:induction false} ApplyConcat(d: Disk, a: seq<Write>, b: seq<Write>)
    ensures Apply(d, a + b) == Apply(Apply(d, a), b)
  {
    if b == [] {
      assert a + b == a;
    } else {
      ApplyConcat(d, a, b[..|b|-1]);
      assert (a + b)[..|a+b|-1] == a + b[..|b|-1];
    }
  }

  /** A prefix of a + b is a prefix of a, or all of a and a prefix of b. */
  lemma ApplySplit(d: Disk, a: seq<Write>, b: seq<Write>, k: nat)
    requires k <= |a| + |b|
    ensures Apply(d, (a + b)[..k]) == if k <= |a| then Apply(d, a[..k]) else Apply(Apply(d, a), b[..k-|a|])
  {
    if k <= |a| {
      assert (a + b)[..k] == a[..k];
    } else {
      assert (a + b)[..k] == a + b[..k-|a|];
      ApplyConcat(d, a, b[..k-|a|]);
    }
  }

  lemma ApplyOne(d: Disk, w: Write)
    ensures Apply(d, [w]) == ApplyWrite(d, w)
  {
    assert [w][..0] == [];
  }

  lemma ApplyPrefix(d: Disk, ws: seq<Write>, k: nat)
    requires k < |ws|
    ensures Apply(d, ws[..k+1]) == ApplyWrite(Apply(d, ws[..k]), ws[k])
  {
    assert ws[..k+1][..k] == ws[..k];
  }

  // ---------- the header block

  /** A header that read_head can load without leaving lh.block. */
  predicate HeadFits(b: Block) {
    Word(b, 0) <= LOGSIZE
  }

  /** read_head: the block numbers listed in a header block. */
  function Head(b: Block): seq<uint>
    requires HeadFits(b)
  {
    seq(Word(b, 0), i requires 0 <= i < LOGSIZE => Word(b, i + 1))
  }

  function SetEntries(b: Block, bs: seq<uint>): Block
    requires |bs| <= LOGSIZE
  {
    if bs == [] then b else SetWord(SetEntries(b, bs[..|bs|-1]), |bs|, bs[|bs|-1])
  }

  /** write_head: only the count and the first |bs| entries of the old header change. */
  function SetHead(b: Block, bs: seq<uint>): Block
    requires |bs| <= LOGSIZE
  {
    SetEntries(SetWord(b, 0, |bs|), bs)
  }

  lemma {:induction false} SetEntriesWords(b: Block, bs: seq<uint>, j: nat)
    requires |bs| <= LOGSIZE && j < WORDS
    ensures Word(SetEntries(b, bs), j) == if 1 <= j <= |bs| then bs[j-1] else Word(b, j)
  {
    if bs != [] {
      SetEntriesWords(b, bs[..|bs|-1], j);
      WordOfSetWord(SetEntries(b, bs[..|bs|-1]), |bs|, bs[|bs|-1], j);
    }
  }

  /** Reading back what write_head wrote gives the same list, whatever the header held before. */
  lemma HeadOfSetHead(b: Block, bs: seq<uint>)
    requires |bs| <= LOGSIZE
    ensures HeadFits(SetHead(b, bs)) && Head(SetHead(b, bs)) == bs
  {
    var b0 := SetWord(b, 0, |bs|);
    SetEntriesWords(b0, bs, 0);
    WordOfSetWord(b, 0, |bs|, 0);
    forall i | 0 <= i < |bs| ensures Word(SetHead(b, bs), i + 1) == bs[i] {
      SetEntriesWords(b0, bs, i + 1);
    }
  }

  // ---------- commit and recovery as write sequences

  function LogWrites(L: Layout, data: seq<Block>): seq<Write> {
    seq(|data|, i requires 0 <= i < |data| => Write(L.start + 1 + i, data[i]))
  }

  function InstallWrites(bs: seq<uint>, data: seq<Block>): seq<Write>
    requires |bs| == |data|
  {
    seq(|data|, i requires 0 <= i < |data| => Write(bs[i], data[i]))
  }

  /** The writes of commit() up to its commit point; `h` is the header block before. */
  function LoggingWrites(L: Layout, h: Block, bs: seq<uint>, data: seq<Block>): seq<Write>
    requires |bs| == |data| <= LOGSIZE
  {
    LogWrites(L, data) + [Write(L.start, SetHead(h, bs))]
  }

  /** Installing logged blocks and emptying the log; `h` is the header block before. */
  function InstallingWrites(L: Layout, h: Block, bs: seq<uint>, data: seq<Block>): seq<Write>
    requires |bs| == |data|
  {
    InstallWrites(bs, data) + [Write(L.start, SetHead(h, []))]
  }

  /** All writes of one commit() of blocks `bs` with new contents `data`. */
  function CommitWrites(L: Layout, h: Block, bs: seq<uint>, data: seq<Block>): seq<Write>
    requires |bs| == |data| <= LOGSIZE
  {
    if |bs| == 0 then [] else LoggingWrites(L, h, bs, data) + InstallingWrites(L, SetHead(h, bs), bs, data)
  }

  /** The log area of d can be recovered: the header lists home blocks that have a log block each. */
  ghost predicate Recoverable(L: Layout, d: Disk) {
    && L.Valid() && |d| == L.blocks
    && HeadFits(d[L.start])
    && |Head(d[L.start])| < L.size
    && forall i | 0 <= i < |Head(d[L.start])| :: L.Home(Head(d[L.start])[i])
  }

  /** All writes of recover_from_log() started on disk d. */
  function RecoveryWrites(L: Layout, d: Disk): seq<Write>
    requires Recoverable(L, d)
  {
    var bs := Head(d[L.start]);
    InstallingWrites(L, d[L.start], bs, d[L.start+1..L.start+1+|bs|])
  }

  function Recover(L: Layout, d: Disk): Disk
    requires Recoverable(L, d)
  {
    Apply(d, RecoveryWrites(L, d))
  }

  // ---------- the file system image a disk stands for

  /** Disk d stands for image `fs`: every home block holds its image, or its image is in the
      log block the header assigns to it. */
  ghost predicate Represents(L: Layout, d: Disk, fs: Disk) {
    && Recoverable(L, d)
    && |fs| == |d|
    && (forall i | 0 <= i < |Head(d[L.start])| :: d[L.start + 1 + i] == fs[Head(d[L.start])[i]])
    && (forall x: nat | L.Home(x) && x !in Head(d[L.start]) :: d[x] == fs[x])
  }

  ghost predicate SameHome(L: Layout, d: Disk, e: Disk) {
    |d| == |e| == L.blocks && forall x: nat | L.Home(x) :: d[x] == e[x]
  }

  ghost predicate EmptyLog(L: Layout, d: Disk) {
    L.Valid() && |d| == L.blocks && Word(d[L.start], 0) == 0
  }

  lemma EmptyLogRepresents(L: Layout, d: Disk, fs: Disk)
    requires EmptyLog(L, d) && |fs| == |d|
    ensures Represents(L, d, fs) <==> SameHome(L, d, fs)
  {
  }

  /** Writing the image of a logged block to its home changes nothing about what the disk stands for. */
  lemma InstallKeeps(L: Layout, d: Disk, fs: Disk, x: nat)
    requires Represents(L, d, fs) && L.Home(x)
    ensures Represents(L, ApplyWrite(d, Write(x, fs[x])), fs)
    ensures ApplyWrite(d, Write(x, fs[x]))[L.start] == d[L.start]
  {
  }

  lemma {:induction false} InstallPrefixKeeps(L: Layout, d: Disk, fs: Disk, bs: seq<uint>, data: seq<Block>, k: nat)
    requires Represents(L, d, fs)
    requires k <= |bs| == |data|
    requires forall i | 0 <= i < |bs| :: L.Home(bs[i]) && data[i] == fs[bs[i]]
    ensures var e := Apply(d, InstallWrites(bs, data)[..k]);
      Represents(L, e, fs) && e[L.start] == d[L.start] && forall i | 0 <= i < k :: e[bs[i]] == fs[bs[i]]
  {
    if k > 0 {
      InstallPrefixKeeps(L, d, fs, bs, data, k - 1);
      var ws := InstallWrites(bs, data);
      var e := Apply(d, ws[..k-1]);
      ApplyPrefix(d, ws, k - 1);
      assert Apply(d, ws[..k]) == ApplyWrite(e, Write(bs[k-1], fs[bs[k-1]]));
      InstallKeeps(L, e, fs, bs[k-1]);
    }
  }

  /** Once every logged block is home, the log can be emptied. */
  lemma ClearKeeps(L: Layout, d: Disk, fs: Disk)
    requires Represents(L, d, fs)
    requires forall i | 0 <= i < |Head(d[L.start])| :: d[Head(d[L.start])[i]] == fs[Head(d[L.start])[i]]
    ensures var e := ApplyWrite(d, Write(L.start, SetHead(d[L.start], [])));
      EmptyLog(L, e) && Represents(L, e, fs) && SameHome(L, e, fs)
  {
    var e := ApplyWrite(d, Write(L.start, SetHead(d[L.start], [])));
    HeadOfSetHead(d[L.start], []);
    assert e[L.start] == SetHead(d[L.start], []);
    forall x: nat | L.Home(x) ensures e[x] == fs[x] {
      assert e[x] == d[x];
    }
  }

  /** Installing cut off after k writes leaves the image as it is; complete, it puts it home. */
  lemma InstallingPrefix(L: Layout, d: Disk, fs: Disk, bs: seq<uint>, data: seq<Block>, k: nat)
    requires Represents(L, d, fs) && Head(d[L.start]) == bs
    requires |data| == |bs| && forall i | 0 <= i < |bs| :: data[i] == fs[bs[i]]
    requires k <= |bs| + 1
    ensures var e := Apply(d, InstallingWrites(L, d[L.start], bs, data)[..k]);
      Represents(L, e, fs) && (k == |bs| + 1 ==> EmptyLog(L, e) && SameHome(L, e, fs))
  {
    var a, w := InstallWrites(bs, data), Write(L.start, SetHead(d[L.start], []));
    ApplySplit(d, a, [w], k);
    InstallPrefixKeeps(L, d, fs, bs, data, if k <= |bs| then k else |bs|);
    if k == |bs| + 1 {
      assert a[..|bs|] == a && [w][..1] == [w];
      ApplyOne(Apply(d, a), w);
      ClearKeeps(L, Apply(d, a), fs);
    }
  }

  /** A recovery interrupted after any k of its writes leaves a disk that stands for the same image;
      a recovery that completes leaves that image at home and the log empty. */
  lemma RecoveryPrefix(L: Layout, d: Disk, fs: Disk, k: nat)
    requires Represents(L, d, fs) && k <= |RecoveryWrites(L, d)|
    ensures Represents(L, Apply(d, RecoveryWrites(L, d)[..k]), fs)
    ensures k == |RecoveryWrites(L, d)| ==>
      var e := Apply(d, RecoveryWrites(L, d)[..k]); EmptyLog(L, e) && SameHome(L, e, fs)
  {
    var bs := Head(d[L.start]);
    var data := d[L.start+1..L.start+1+|bs|];
    forall i | 0 <= i < |bs| ensures data[i] == fs[bs[i]] {
      assert data[i] == d[L.start + 1 + i];
    }
    assert RecoveryWrites(L, d) == InstallingWrites(L, d[L.start], bs, data);
    InstallingPrefix(L, d, fs, bs, data, k);
  }

  /** A disk after a series of recoveries, each cut off after the given number of writes. */
  ghost function Crashes(L: Layout, d: Disk, cuts: seq<nat>): Disk {
    if cuts == [] then d else
      var e := Crashes(L, d, cuts[..|cuts|-1]);
      var k := cuts[|cuts|-1];
      if Recoverable(L, e) && k <= |RecoveryWrites(L, e)| then Apply(e, RecoveryWrites(L, e)[..k]) else e
  }

  lemma {:induction false} CrashesKeep(L: Layout, d: Disk, fs: Disk, cuts: seq<nat>)
    requires Represents(L, d, fs)
    ensures Represents(L, Crashes(L, d, cuts), fs)
  {
    if cuts != [] {
      CrashesKeep(L, d, fs, cuts[..|cuts|-1]);
      var e := Crashes(L, d, cuts[..|cuts|-1]);
      var k := cuts[|cuts|-1];
      if k <= |RecoveryWrites(L, e)| {
        RecoveryPrefix(L, e, fs, k);
      }
    }
  }

  /** However often recovery is interrupted, the one that completes restores the image. */
  lemma RecoveryRestores(L: Layout, d: Disk, fs: Disk, cuts: seq<nat>)
    requires Represents(L, d, fs)
    ensures var e := Crashes(L, d, cuts);
      Recoverable(L, e) && EmptyLog(L, Recover(L, e)) && SameHome(L, Recover(L, e), fs)
  {
    CrashesKeep(L, d, fs, cuts);
    var e := Crashes(L, d, cuts);
    var ws := RecoveryWrites(L, e);
    assert ws[..|ws|] == ws;
    RecoveryPrefix(L, e, fs, |ws|);
  }

  // ---------- commit

  /** A transaction log_write can build up: at most LOGSIZE home blocks that fit the log area. */
  ghost predicate Loggable(L: Layout, bs: seq<uint>) {
    L.Valid() && |bs| <= LOGSIZE && |bs| < L.size && forall i | 0 <= i < |bs| :: L.Home(bs[i])
  }

  /** `after` is `before` with at most the blocks in bs changed. */
  ghost predicate ChangesOnly(L: Layout, before: Disk, after: Disk, bs: seq<uint>) {
    |before| == |after| == L.blocks && forall x: nat | L.Home(x) && x !in bs :: before[x] == after[x]
  }

  function Contents(fs: Disk, bs: seq<uint>): (data: seq<Block>)
    requires forall i | 0 <= i < |bs| :: bs[i] < |fs|
    ensures |data| == |bs|
  {
    seq(|bs|, i requires 0 <= i < |bs| => fs[bs[i]])
  }

  /** Writing log blocks touches neither the header nor any home block. */
  lemma {:induction false} LogPrefix(L: Layout, d: Disk, data: seq<Block>, k: nat)
    requires L.Valid() && |d| == L.blocks && k <= |data| < L.size
    ensures var e := Apply(d, LogWrites(L, data)[..k]);
      SameHome(L, e, d) && e[L.start] == d[L.start] && forall i | 0 <= i < k :: e[L.start + 1 + i] == data[i]
  {
    if k > 0 {
      LogPrefix(L, d, data, k - 1);
      ApplyPrefix(d, LogWrites(L, data), k - 1);
    }
  }

  /** Writing home blocks does not touch the log area. */
  lemma {:induction false} InstallPrefix(L: Layout, d: Disk, bs: seq<uint>, data: seq<Block>, k: nat)
    requires L.Valid() && |d| == L.blocks && k <= |bs| == |data| && forall i | 0 <= i < |bs| :: L.Home(bs[i])
    ensures var e := Apply(d, InstallWrites(bs, data)[..k]);
      forall x | L.start <= x < L.start + L.size :: e[x] == d[x]
  {
    if k > 0 {
      InstallPrefix(L, d, bs, data, k - 1);
      ApplyPrefix(d, InstallWrites(bs, data), k - 1);
    }
  }

  /** The first t log blocks hold the current content of the first t logged blocks. */
  ghost predicate LogHolds(L: Layout, disk: Disk, fs: Disk, lh: seq<uint>, t: nat)
    requires Loggable(L, lh) && |disk| == |fs| == L.blocks
  {
    t <= |lh| && forall i | 0 <= i < t :: disk[L.start + 1 + i] == fs[lh[i]]
  }

  /** The header write is the commit point: the disk stands for the old image before it and
      for the new image after it. */
  lemma HeaderCommits(L: Layout, d: Disk, before: Disk, after: Disk, bs: seq<uint>)
    requires EmptyLog(L, d) && SameHome(L, d, before) && Loggable(L, bs)
    requires ChangesOnly(L, before, after, bs)
    requires LogHolds(L, d, after, bs, |bs|)
    ensures var e := ApplyWrite(d, Write(L.start, SetHead(d[L.start], bs)));
      Represents(L, e, after) && Head(e[L.start]) == bs && e[L.start] == SetHead(d[L.start], bs)
  {
    HeadOfSetHead(d[L.start], bs);
  }

  lemma LoggingPrefix(L: Layout, d: Disk, after: Disk, bs: seq<uint>, k: nat)
    requires EmptyLog(L, d) && Loggable(L, bs) && ChangesOnly(L, d, after, bs)
    requires k <= |bs| + 1
    ensures var e := Apply(d, LoggingWrites(L, d[L.start], bs, Contents(after, bs))[..k]);
      && (k <= |bs| ==> Represents(L, e, d))
      && (k == |bs| + 1 ==> Represents(L, e, after) && Head(e[L.start]) == bs && e[L.start] == SetHead(d[L.start], bs))
  {
    var data, w := Contents(after, bs), Write(L.start, SetHead(d[L.start], bs));
    var a := LogWrites(L, data);
    ApplySplit(d, a, [w], k);
    LogPrefix(L, d, data, if k <= |bs| then k else |bs|);
    if k == |bs| + 1 {
      var e := Apply(d, a);
      assert a[..|bs|] == a && [w][..1] == [w];
      ApplyOne(e, w);
      forall i | 0 <= i < |bs| ensures e[L.start + 1 + i] == after[bs[i]] {
        assert data[i] == after[bs[i]];
      }
      HeaderCommits(L, e, d, after, bs);
    }
  }

  /** A cut commit is a cut logging, or a whole logging and then a cut installing. */
  lemma CommitSplit(L: Layout, d: Disk, h: Block, bs: seq<uint>, data: seq<Block>, k: nat)
    requires 0 < |bs| == |data| <= LOGSIZE
    requires k <= |CommitWrites(L, h, bs, data)|
    ensures k <= 2 * |bs| + 2
    ensures var a, b := LoggingWrites(L, h, bs, data), InstallingWrites(L, SetHead(h, bs), bs, data);
      && |a| == |b| == |bs| + 1 && a[..|a|] == a
      && Apply(d, CommitWrites(L, h, bs, data)[..k])
        == if k <= |a| then Apply(d, a[..k]) else Apply(Apply(d, a), b[..k - |a|])
  {
    hide Apply, SetHead;
    ApplySplit(d, LoggingWrites(L, h, bs, data), InstallingWrites(L, SetHead(h, bs), bs, data), k);
  }

  lemma CommitPrefixSome(L: Layout, d: Disk, after: Disk, bs: seq<uint>, k: nat)
    requires EmptyLog(L, d) && Loggable(L, bs) && ChangesOnly(L, d, after, bs) && bs != []
    requires k <= |CommitWrites(L, d[L.start], bs, Contents(after, bs))|
    ensures var e := Apply(d, CommitWrites(L, d[L.start], bs, Contents(after, bs))[..k]);
      && Represents(L, e, if k <= |bs| then d else after)
      && (k == 2 * |bs| + 2 ==> EmptyLog(L, e) && SameHome(L, e, after))
  {
    hide Represents, SameHome, Apply, SetHead, Head, CommitWrites, LoggingWrites, InstallingWrites;
    var data, h := Contents(after, bs), d[L.start];
    CommitSplit(L, d, h, bs, data, k);
    LoggingPrefix(L, d, after, bs, if k <= |bs| then k else |bs| + 1);
    if k > |bs| + 1 {
      InstallingPrefix(L, Apply(d, LoggingWrites(L, h, bs, data)), after, bs, data, k - |bs| - 1);
    }
  }

  /** The writes of a commit cut after k: nothing, or everything, has happened. */
  lemma CommitPrefix(L: Layout, d: Disk, after: Disk, bs: seq<uint>, k: nat)
    requires EmptyLog(L, d) && Loggable(L, bs) && ChangesOnly(L, d, after, bs)
    requires k <= |CommitWrites(L, d[L.start], bs, Contents(after, bs))|
    ensures var e := Apply(d, CommitWrites(L, d[L.start], bs, Contents(after, bs))[..k]);
      && Represents(L, e, if k <= |bs| then d else after)
      && (k == 2 * |bs| + 2 ==> EmptyLog(L, e) && SameHome(L, e, after))
  {
    var data, h := Contents(after, bs), d[L.start];
    if |bs| == 0 {
      assert CommitWrites(L, h, bs, data)[..k] == [];
    } else {
      CommitPrefixSome(L, d, after, bs, k);
    }
  }

  /** Crash atomicity of commit(): cut the commit after any k of its writes, then cut any number
      of recoveries anywhere; the recovery that completes leaves the home blocks all as before
      (k <= |bs|, the header was not written) or all as after (k > |bs|), and the log empty. */
  lemma CrashAtomicity(L: Layout, d: Disk, after: Disk, bs: seq<uint>, k: nat, cuts: seq<nat>)
    requires EmptyLog(L, d) && Loggable(L, bs) && ChangesOnly(L, d, after, bs)
    requires k <= |CommitWrites(L, d[L.start], bs, Contents(after, bs))|
    ensures var e := Crashes(L, Apply(d, CommitWrites(L, d[L.start], bs, Contents(after, bs))[..k]), cuts);
      && Recoverable(L, e) && EmptyLog(L, Recover(L, e))
      && SameHome(L, Recover(L, e), if k <= |bs| then d else after)
  {
    CommitPrefix(L, d, after, bs, k);
    var e := Apply(d, CommitWrites(L, d[L.start], bs, Contents(after, bs))[..k]);
    RecoveryRestores(L, e, if k <= |bs| then d else after, cuts);
  }

  /** A commit that completes leaves the new contents at home and the log empty. */
  lemma CommitCompletes(L: Layout, d: Disk, after: Disk, bs: seq<uint>)
    requires EmptyLog(L, d) && Loggable(L, bs) && ChangesOnly(L, d, after, bs)
    ensures var e := Apply(d, CommitWrites(L, d[L.start], bs, Contents(after, bs)));
      EmptyLog(L, e) && SameHome(L, e, after)
  {
    var ws := CommitWrites(L, d[L.start], bs, Contents(after, bs));
    assert ws[..|ws|] == ws;
    CommitPrefix(L, d, after, bs, |ws|);
  }
}
