/** The physical redo log of log.c, on values: what each disk write of commit() and of
    recover_from_log() leaves on the disk, and what a crash after any of them recovers to. */
module LogImages {
  import opened Blocks

  const MAXOPBLOCKS := 10
  const LOGSIZE := MAXOPBLOCKS * 3

  /** Where the log lives: header block at `start`, data blocks up to `start + size`. */
  datatype Layout = Layout(start: nat, size: nat)

  predicate InLog(lay: Layout, b: int) {
    lay.start <= b < lay.start + lay.size
  }

  /** A logged block number names a home block: on the disk and outside the log. */
  predicate HomeBlock(lay: Layout, len: nat, b: int) {
    0 <= b < len && !InLog(lay, b)
  }

  predicate Loggable(lay: Layout, len: nat, blocks: seq<Word>) {
    && |blocks| <= LOGSIZE
    && |blocks| < lay.size
    && forall i :: 0 <= i < |blocks| ==> HomeBlock(lay, len, blocks[i])
  }

  predicate Fits(lay: Layout, d: Disk) {
    1 <= lay.size && lay.start + lay.size <= |d|
  }

  // ---------------------------------------------------------------- header block

  /** struct logheader as stored in the header block. */
  function HeaderOf(hb: Block): (blocks: seq<Word>)
    requires GetWord(hb, 0) <= LOGSIZE
    ensures |blocks| == GetWord(hb, 0)
  {
    seq(GetWord(hb, 0), i requires 0 <= i < GetWord(hb, 0) => GetWord(hb, 1 + i))
  }

  /** hb->block[i] = blocks[i] for the first `k` entries; the rest of the block is left alone. */
  function StoreEntries(hb: Block, blocks: seq<Word>, k: nat): (r: Block)
    requires k <= |blocks| <= LOGSIZE
    ensures GetWord(r, 0) == GetWord(hb, 0)
    ensures forall i :: 0 <= i < k ==> GetWord(r, 1 + i) == blocks[i]
  {
    if k == 0 then hb
    else
      var p := StoreEntries(hb, blocks, k - 1);
      GetPutWord(p, k, blocks[k - 1]);
      PutWord(p, k, blocks[k - 1])
  }

  function StoreHeader(hb: Block, blocks: seq<Word>): (r: Block)
    requires |blocks| <= LOGSIZE
    ensures GetWord(r, 0) == |blocks| && HeaderOf(r) == blocks
  {
    GetPutWord(hb, 0, |blocks|);
    StoreEntries(PutWord(hb, 0, |blocks|), blocks, |blocks|)
  }

  /** The disk holds a header a recovery may act on. */
  predicate Recoverable(lay: Layout, d: Disk) {
    && Fits(lay, d)
    && GetWord(d[lay.start], 0) <= LOGSIZE
    && Loggable(lay, |d|, HeaderOf(d[lay.start]))
  }

  /** write_head() as one disk write. */
  function WithHeader(lay: Layout, d: Disk, blocks: seq<Word>): (r: Disk)
    requires Fits(lay, d) && |blocks| <= LOGSIZE
    ensures |r| == |d|
  {
    d[lay.start := StoreHeader(d[lay.start], blocks)]
  }

  // ---------------------------------------------------------------- home blocks

  /** The file system's blocks: everything outside the log. */
  function Home(lay: Layout, d: Disk): (h: map<int, Block>) {
    map b | 0 <= b < |d| && !InLog(lay, b) :: d[b]
  }

  /** What bread returns while modified blocks are pinned in the cache. */
  function Logical(d: Disk, cache: map<int, Block>, b: int): (r: Block)
    requires 0 <= b < |d|
  {
    if b in cache then cache[b] else d[b]
  }

  /** The home blocks as the running system sees them. */
  function LogicalHome(lay: Layout, d: Disk, cache: map<int, Block>): (h: map<int, Block>) {
    map b | 0 <= b < |d| && !InLog(lay, b) :: Logical(d, cache, b)
  }

  // ---------------------------------------------------------------- install and recovery

  /** The disk after install_trans() has copied the first `k` log blocks home. */
  function Installed(lay: Layout, d: Disk, blocks: seq<Word>, k: nat): (r: Disk)
    requires Fits(lay, d) && Loggable(lay, |d|, blocks) && k <= |blocks|
    ensures |r| == |d|
    ensures k == 0 ==> r == d
    ensures forall b :: InLog(lay, b) ==> r[b] == d[b]
  {
    if k == 0 then d
    else
      var p := Installed(lay, d, blocks, k - 1);
      p[blocks[k - 1] := p[lay.start + k]]
  }

  /** The disk after `k` of the disk writes of recover_from_log(): one per log block, then the header. */
  function RecoveryImage(lay: Layout, d: Disk, k: nat): (r: Disk)
    requires Recoverable(lay, d) && k <= |HeaderOf(d[lay.start])| + 1
    ensures |r| == |d|
  {
    var blocks := HeaderOf(d[lay.start]);
    if k <= |blocks| then Installed(lay, d, blocks, k)
    else WithHeader(lay, Installed(lay, d, blocks, |blocks|), [])
  }

  /** The disk recover_from_log() leaves when nothing interrupts it. */
  function Recover(lay: Layout, d: Disk): (r: Disk)
    requires Recoverable(lay, d)
    ensures |r| == |d|
  {
    RecoveryImage(lay, d, |HeaderOf(d[lay.start])| + 1)
  }

  /** The disk after each of the first `k` writes of recover_from_log(), in order. */
  function RecoveryImages(lay: Layout, d: Disk, k: nat): (r: seq<Disk>)
    requires Recoverable(lay, d) && k <= |HeaderOf(d[lay.start])| + 1
    ensures |r| == k
  {
    if k == 0 then [] else RecoveryImages(lay, d, k - 1) + [RecoveryImage(lay, d, k)]
  }

  /** One more block installed, as the code computes it. */
  lemma {:induction false} InstallStep(lay: Layout, d: Disk, blocks: seq<Word>, k: nat)
    requires Recoverable(lay, d) && HeaderOf(d[lay.start]) == blocks && k < |blocks|
    ensures var p := Installed(lay, d, blocks, k);
            && Installed(lay, d, blocks, k + 1) == p[blocks[k] := p[lay.start + k + 1]]
            && RecoveryImages(lay, d, k + 1) == RecoveryImages(lay, d, k) + [Installed(lay, d, blocks, k + 1)]
  {
  }

  /** `ks[i]` is the number of disk writes the `i`th boot completed before it crashed. */
  predicate CrashChain(lay: Layout, d: Disk, ks: seq<nat>)
    decreases |ks|
  {
    && Recoverable(lay, d)
    && (ks != [] ==>
          && ks[0] <= |HeaderOf(d[lay.start])| + 1
          && CrashChain(lay, RecoveryImage(lay, d, ks[0]), ks[1..]))
  }

  function AfterCrashes(lay: Layout, d: Disk, ks: seq<nat>): (r: Disk)
    requires CrashChain(lay, d, ks)
    ensures Recoverable(lay, r)
    decreases |ks|
  {
    if ks == [] then d else AfterCrashes(lay, RecoveryImage(lay, d, ks[0]), ks[1..])
  }

  /** Index of the last of the first `k` log entries for block `b`, or -1. */
  function LastEntry(blocks: seq<Word>, k: nat, b: int): (j: int)
    requires k <= |blocks|
    ensures -1 <= j < k
    ensures j >= 0 ==> blocks[j] == b
    ensures j >= 0 <==> b in blocks[..k]
  {
    if k == 0 then -1
    else
      assert blocks[..k] == blocks[..k - 1] + [blocks[k - 1]];
      if blocks[k - 1] == b then k - 1 else LastEntry(blocks, k - 1, b)
  }

  /** Pointwise meaning of Installed: the last log entry for a block wins. */
  lemma {:induction false} InstalledAt(lay: Layout, d: Disk, blocks: seq<Word>, k: nat, b: int)
    requires Fits(lay, d) && Loggable(lay, |d|, blocks) && k <= |blocks| && 0 <= b < |d|
    ensures var j := LastEntry(blocks, k, b);
            Installed(lay, d, blocks, k)[b] == if j < 0 then d[b] else d[lay.start + 1 + j]
  {
    if k > 0 {
      InstalledAt(lay, d, blocks, k - 1, b);
    }
  }

  /** A block with an entry among the first `k` has a later or equal one among all. */
  lemma {:induction false} LastEntryGrows(blocks: seq<Word>, k: nat, n: nat, b: int)
    requires k <= n <= |blocks|
    ensures LastEntry(blocks, k, b) <= LastEntry(blocks, n, b)
  {
    if k < n {
      LastEntryGrows(blocks, k, n - 1, b);
    }
  }

  /** Replaying the log over a disk on which part of it is already installed changes nothing. */
  lemma {:induction false} ReinstallAbsorbs(lay: Layout, d: Disk, blocks: seq<Word>, k: nat)
    requires Fits(lay, d) && Loggable(lay, |d|, blocks) && k <= |blocks|
    ensures Installed(lay, Installed(lay, d, blocks, k), blocks, |blocks|) == Installed(lay, d, blocks, |blocks|)
  {
    var n := |blocks|;
    var p := Installed(lay, d, blocks, k);
    forall b | 0 <= b < |d|
      ensures Installed(lay, p, blocks, n)[b] == Installed(lay, d, blocks, n)[b]
    {
      InstalledAt(lay, d, blocks, n, b);
      InstalledAt(lay, p, blocks, n, b);
      InstalledAt(lay, d, blocks, k, b);
      LastEntryGrows(blocks, k, n, b);
    }
  }

  /** Recovery interrupted after any of its disk writes is repaired by running it again. */
  lemma {:induction false} RecoveryIdempotent(lay: Layout, d: Disk, k: nat)
    requires Recoverable(lay, d) && k <= |HeaderOf(d[lay.start])| + 1
    ensures Recoverable(lay, RecoveryImage(lay, d, k))
    ensures Recover(lay, RecoveryImage(lay, d, k)) == Recover(lay, d)
  {
    var blocks := HeaderOf(d[lay.start]);
    var p := RecoveryImage(lay, d, k);
    if k <= |blocks| {
      assert p[lay.start] == d[lay.start];
      ReinstallAbsorbs(lay, d, blocks, k);
    } else {
      assert HeaderOf(p[lay.start]) == [];
      StoreEmptyTwice(Installed(lay, d, blocks, |blocks|)[lay.start]);
    }
  }

  lemma {:induction false} StoreEmptyTwice(hb: Block)
    ensures StoreHeader(StoreHeader(hb, []), []) == StoreHeader(hb, [])
  {
    assert PutWord(PutWord(hb, 0, 0), 0, 0) == PutWord(hb, 0, 0);
  }

  /** Any number of crashes during recovery: the final boot ends where the first would have. */
  lemma {:induction false} CrashesDoNotMatter(lay: Layout, d: Disk, ks: seq<nat>)
    requires CrashChain(lay, d, ks)
    ensures Recover(lay, AfterCrashes(lay, d, ks)) == Recover(lay, d)
    decreases |ks|
  {
    if ks != [] {
      RecoveryIdempotent(lay, d, ks[0]);
      CrashesDoNotMatter(lay, RecoveryImage(lay, d, ks[0]), ks[1..]);
    }
  }

  // ---------------------------------------------------------------- commit

  /** The disk after write_log() has copied the first `k` cached blocks into the log. */
  function Logged(lay: Layout, d: Disk, cache: map<int, Block>, blocks: seq<Word>, k: nat): (r: Disk)
    requires Fits(lay, d) && Loggable(lay, |d|, blocks) && k <= |blocks|
    ensures |r| == |d| && r[lay.start] == d[lay.start]
    ensures forall b :: HomeBlock(lay, |d|, b) ==> r[b] == d[b]
    ensures forall i :: 0 <= i < k ==> r[lay.start + 1 + i] == Logical(d, cache, blocks[i])
  {
    if k == 0 then d
    else
      var p := Logged(lay, d, cache, blocks, k - 1);
      p[lay.start + k := Logical(p, cache, blocks[k - 1])]
  }

  /** Number of disk writes in commit(): log blocks, header, home blocks, header. */
  function CommitWrites(n: nat): (k: nat) {
    if n == 0 then 0 else 2 * n + 2
  }

  /** The disk after `k` of the disk writes of commit(). */
  function CommitImage(lay: Layout, d: Disk, cache: map<int, Block>, blocks: seq<Word>, k: nat): (r: Disk)
    requires Fits(lay, d) && Loggable(lay, |d|, blocks) && k <= CommitWrites(|blocks|)
    ensures |r| == |d|
  {
    var n := |blocks|;
    if k <= n then Logged(lay, d, cache, blocks, k)
    else
      var committed := WithHeader(lay, Logged(lay, d, cache, blocks, n), blocks);
      if k <= 2 * n + 1 then Installed(lay, committed, blocks, k - n - 1)
      else WithHeader(lay, Installed(lay, committed, blocks, n), [])
  }

  /** The disk after each of the first `k` writes of commit(), in order. */
  function CommitImages(lay: Layout, d: Disk, cache: map<int, Block>, blocks: seq<Word>, k: nat): (r: seq<Disk>)
    requires Fits(lay, d) && Loggable(lay, |d|, blocks) && k <= CommitWrites(|blocks|)
    ensures |r| == k
  {
    if k == 0 then [] else CommitImages(lay, d, cache, blocks, k - 1) + [CommitImage(lay, d, cache, blocks, k)]
  }

  /** The log is empty on disk: recovery has nothing to install. */
  predicate LogEmpty(lay: Layout, d: Disk) {
    Fits(lay, d) && GetWord(d[lay.start], 0) == 0
  }

  /** The home blocks once the transaction `blocks` has taken effect. */
  function NewHome(lay: Layout, d: Disk, cache: map<int, Block>, blocks: seq<Word>): (h: map<int, Block>) {
    map b | 0 <= b < |d| && !InLog(lay, b) :: if b in blocks then Logical(d, cache, b) else d[b]
  }

  lemma {:induction false} LogEmptyRecover(lay: Layout, d: Disk)
    requires LogEmpty(lay, d)
    ensures Recoverable(lay, d)
    ensures Home(lay, Recover(lay, d)) == Home(lay, d)
  {
    assert HeaderOf(d[lay.start]) == [];
  }

  /** The disk as of the header write: the point at which the transaction commits. */
  function Committed(lay: Layout, d: Disk, cache: map<int, Block>, blocks: seq<Word>): (c: Disk)
    requires Fits(lay, d) && Loggable(lay, |d|, blocks)
    ensures |c| == |d| && Recoverable(lay, c) && HeaderOf(c[lay.start]) == blocks
    ensures forall b :: HomeBlock(lay, |d|, b) ==> c[b] == d[b]
    ensures forall i :: 0 <= i < |blocks| ==> c[lay.start + 1 + i] == Logical(d, cache, blocks[i])
  {
    WithHeader(lay, Logged(lay, d, cache, blocks, |blocks|), blocks)
  }

  /** If every log entry for `b` holds `v`, installing the whole log puts `v` there. */
  lemma {:induction false} InstallOne(lay: Layout, c: Disk, blocks: seq<Word>, b: int, v: Block)
    requires Fits(lay, c) && Loggable(lay, |c|, blocks) && 0 <= b < |c|
    requires forall i :: 0 <= i < |blocks| && blocks[i] == b ==> c[lay.start + 1 + i] == v
    ensures Installed(lay, c, blocks, |blocks|)[b] == if b in blocks then v else c[b]
  {
    assert blocks[..|blocks|] == blocks;
    InstalledAt(lay, c, blocks, |blocks|, b);
  }

  /** Installing a whole transaction from the log puts every logged block home. */
  lemma {:induction false} InstallAll(lay: Layout, d: Disk, cache: map<int, Block>, blocks: seq<Word>)
    requires Fits(lay, d) && Loggable(lay, |d|, blocks)
    ensures Home(lay, Installed(lay, Committed(lay, d, cache, blocks), blocks, |blocks|))
            == NewHome(lay, d, cache, blocks)
  {
    hide Committed, Installed, Loggable, Fits;
    var c := Committed(lay, d, cache, blocks);
    forall b | HomeBlock(lay, |d|, b)
      ensures Installed(lay, c, blocks, |blocks|)[b] == if b in blocks then Logical(d, cache, b) else d[b]
    {
      InstallOne(lay, c, blocks, b, Logical(d, cache, b));
    }
  }

  /** No home block changes on disk until the transaction's header is there. */
  lemma {:induction false} HomeUntouchedBeforeHeader(lay: Layout, d: Disk, cache: map<int, Block>, blocks: seq<Word>, k: nat)
    requires Fits(lay, d) && Loggable(lay, |d|, blocks) && k <= |blocks| + 1 && k <= CommitWrites(|blocks|)
    ensures Home(lay, CommitImage(lay, d, cache, blocks, k)) == Home(lay, d)
  {
  }

  /** From the header write on, the rest of commit() is exactly a recovery. */
  lemma {:induction false} CommitTailIsRecovery(lay: Layout, d: Disk, cache: map<int, Block>, blocks: seq<Word>, k: nat)
    requires Fits(lay, d) && Loggable(lay, |d|, blocks) && |blocks| < k <= CommitWrites(|blocks|)
    ensures CommitImage(lay, d, cache, blocks, k)
            == RecoveryImage(lay, Committed(lay, d, cache, blocks), k - |blocks| - 1)
  {
  }

  lemma {:induction false} CommitTailImages(lay: Layout, d: Disk, cache: map<int, Block>, blocks: seq<Word>, k: nat)
    requires Fits(lay, d) && Loggable(lay, |d|, blocks) && 0 < |blocks| && k <= |blocks| + 1
    ensures CommitImages(lay, d, cache, blocks, |blocks| + 1)
            + RecoveryImages(lay, Committed(lay, d, cache, blocks), k)
            == CommitImages(lay, d, cache, blocks, |blocks| + 1 + k)
  {
    hide Loggable, Fits, Committed, CommitImage, RecoveryImage;
    var first := CommitImages(lay, d, cache, blocks, |blocks| + 1);
    var c := Committed(lay, d, cache, blocks);
    if k > 0 {
      CommitTailImages(lay, d, cache, blocks, k - 1);
      CommitTailIsRecovery(lay, d, cache, blocks, |blocks| + 1 + k);
      assert first + RecoveryImages(lay, c, k)
          == (first + RecoveryImages(lay, c, k - 1)) + [RecoveryImage(lay, c, k)];
    }
  }

  /** The `i`th disk a commit leaves behind, and hence the one a crash may leave. */
  lemma {:induction false} CommitImagesAt(lay: Layout, d: Disk, cache: map<int, Block>, blocks: seq<Word>, k: nat, i: nat)
    requires Fits(lay, d) && Loggable(lay, |d|, blocks) && i < k <= CommitWrites(|blocks|)
    ensures CommitImages(lay, d, cache, blocks, k)[i] == CommitImage(lay, d, cache, blocks, i + 1)
  {
    hide Loggable, Fits, CommitImage;
    if i < k - 1 {
      CommitImagesAt(lay, d, cache, blocks, k - 1, i);
    }
  }

  /** Crash atomicity of commit(): after any of its disk writes, recovery yields the old home
      blocks if the header is not yet written and all the new ones from then on. */
  lemma {:induction false} CommitAtomic(lay: Layout, d: Disk, cache: map<int, Block>, blocks: seq<Word>, k: nat)
    requires LogEmpty(lay, d) && Loggable(lay, |d|, blocks) && k <= CommitWrites(|blocks|)
    ensures Recoverable(lay, CommitImage(lay, d, cache, blocks, k))
    ensures Home(lay, Recover(lay, CommitImage(lay, d, cache, blocks, k)))
            == if k <= |blocks| then Home(lay, d) else NewHome(lay, d, cache, blocks)
  {
    hide Committed, RecoveryImage, NewHome, Home, Logged, Loggable;
    if k <= |blocks| {
      HomeUntouchedBeforeHeader(lay, d, cache, blocks, k);
      LogEmptyRecover(lay, CommitImage(lay, d, cache, blocks, k));
    } else {
      CommitTailIsRecovery(lay, d, cache, blocks, k);
      RecoveryIdempotent(lay, Committed(lay, d, cache, blocks), k - |blocks| - 1);
      RecoverCommitted(lay, d, cache, blocks);
    }
  }

  lemma {:induction false} RecoverCommitted(lay: Layout, d: Disk, cache: map<int, Block>, blocks: seq<Word>)
    requires Fits(lay, d) && Loggable(lay, |d|, blocks)
    ensures Home(lay, Recover(lay, Committed(lay, d, cache, blocks))) == NewHome(lay, d, cache, blocks)
  {
    hide Committed, Installed, NewHome;
    InstallAll(lay, d, cache, blocks);
  }

  /** When commit() returns, the log is empty again and the new home blocks are on disk. */
  lemma {:induction false} CommitDone(lay: Layout, d: Disk, cache: map<int, Block>, blocks: seq<Word>)
    requires LogEmpty(lay, d) && Loggable(lay, |d|, blocks)
    ensures var r := CommitImage(lay, d, cache, blocks, CommitWrites(|blocks|));
            LogEmpty(lay, r) && Home(lay, r) == NewHome(lay, d, cache, blocks)
  {
    hide Installed, Loggable, HeaderOf;
    InstallAll(lay, d, cache, blocks);
  }

  // ---------------------------------------------------------------- the log's state

  /** struct log together with the disk and the modified blocks pinned in the buffer cache. */
  datatype Core = Core(disk: Disk, cache: map<int, Block>, lh: seq<Word>, outstanding: int, committing: bool)

  datatype Outcome = Done(core: Core) | Sleep | TooBig | OutsideTrans | CommittingPanic

  predicate ValidCore(lay: Layout, c: Core) {
    && Fits(lay, c.disk)
    && Loggable(lay, |c.disk|, c.lh)
    && forall b :: b in c.cache ==> HomeBlock(lay, |c.disk|, b)
  }

  /** One pass of begin_op()'s loop. */
  function BeginOp(c: Core): (o: Outcome) {
    if c.committing then Sleep
    else if |c.lh| + (c.outstanding + 1) * MAXOPBLOCKS > LOGSIZE then Sleep
    else Done(c.(outstanding := c.outstanding + 1))
  }

  /** Log absorption: a block already in the transaction keeps its entry. */
  function Absorb(lh: seq<Word>, b: Word): (r: seq<Word>) {
    if b in lh then lh else lh + [b]
  }

  /** log_write() of block `b`, whose buffer now holds `data`. */
  function LogWrite(lay: Layout, c: Core, b: Word, data: Block): (o: Outcome) {
    if |c.lh| >= LOGSIZE || |c.lh| >= lay.size - 1 then TooBig
    else if c.outstanding < 1 then OutsideTrans
    else Done(c.(lh := Absorb(c.lh, b), cache := c.cache[b as int := data]))
  }

  /** The locked region of end_op(); the caller goes on to commit() if `committing` is now set. */
  function EndOp(c: Core): (o: Outcome) {
    if c.committing then CommittingPanic
    else Done(c.(outstanding := c.outstanding - 1, committing := c.outstanding == 1))
  }

  function BlockSet(blocks: seq<Word>, k: nat): (s: set<int>)
    requires k <= |blocks|
    ensures forall b :: b in s <==> b in blocks[..k]
  {
    if k == 0 then {}
    else
      assert blocks[..k] == blocks[..k - 1] + [blocks[k - 1]];
      BlockSet(blocks, k - 1) + {blocks[k - 1] as int}
  }

  /** The blocks whose buffers the first `k` disk writes of commit() have cleaned. */
  function Cleaned(blocks: seq<Word>, k: nat): (s: set<int>) {
    var n := |blocks|;
    var installed := if k <= n then 0 else if k <= 2 * n then k - n - 1 else n;
    BlockSet(blocks, installed)
  }

  /** The log after `k` of the disk writes of commit(). */
  function CommitCore(lay: Layout, c: Core, k: nat): (r: Core)
    requires ValidCore(lay, c) && k <= CommitWrites(|c.lh|)
  {
    c.(disk := CommitImage(lay, c.disk, c.cache, c.lh, k),
       cache := c.cache - Cleaned(c.lh, k),
       lh := if k == CommitWrites(|c.lh|) then [] else c.lh)
  }

  /** The disk commit() leaves. */
  function CommitFinal(lay: Layout, c: Core): (d: Disk)
    requires ValidCore(lay, c)
  {
    WithHeader(lay, Installed(lay, Committed(lay, c.disk, c.cache, c.lh), c.lh, |c.lh|), [])
  }

  /** What the four parts of commit() add up to: the state. */
  lemma {:induction false} CommitShape(lay: Layout, c: Core)
    requires ValidCore(lay, c) && 0 < |c.lh|
    ensures LogEmpty(lay, CommitFinal(lay, c))
    ensures CommitCore(lay, c, CommitWrites(|c.lh|))
            == c.(disk := CommitFinal(lay, c), cache := c.cache - BlockSet(c.lh, |c.lh|), lh := [])
    ensures ValidCore(lay, CommitCore(lay, c, CommitWrites(|c.lh|)))
  {
    hide HeaderOf, Installed;
  }

  lemma {:induction false} CommitNothing(lay: Layout, c: Core)
    requires ValidCore(lay, c) && |c.lh| == 0
    ensures CommitCore(lay, c, 0) == c && CommitImages(lay, c.disk, c.cache, c.lh, 0) == []
  {
    assert c.cache - {} == c.cache;
  }

  /** What the four parts of commit() add up to: the disk images. */
  lemma {:induction false} CommitTrail(lay: Layout, c: Core)
    requires ValidCore(lay, c) && 0 < |c.lh|
    ensures var committed := Committed(lay, c.disk, c.cache, c.lh);
            CommitImages(lay, c.disk, c.cache, c.lh, CommitWrites(|c.lh|))
            == CommitImages(lay, c.disk, c.cache, c.lh, |c.lh|) + [committed]
               + RecoveryImages(lay, committed, |c.lh|) + [CommitFinal(lay, c)]
  {
    hide Installed, Loggable, Fits, RecoveryImages, HeaderOf;
    var n := |c.lh|;
    CommitTailImages(lay, c.disk, c.cache, c.lh, n);
    assert CommitImages(lay, c.disk, c.cache, c.lh, n + 1)
        == CommitImages(lay, c.disk, c.cache, c.lh, n) + [Committed(lay, c.disk, c.cache, c.lh)];
  }
}
