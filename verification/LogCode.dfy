/** log.c as code: the in-memory header, the disk and the pinned buffers updated in place.
    Every disk write is recorded in `trail`, so that a crash after any of them can be discussed. */
module LogCode {
  import opened Blocks
  import opened LogImages

  class Log {
    const lay: Layout
    const block: array<Word>    // lh.block
    var n: nat                  // lh.n
    var outstanding: int
    var committing: bool
    var disk: Disk
    var cache: map<int, Block>  // B_DIRTY buffers
    ghost var trail: seq<Disk>  // the disk after each write so far

    ghost predicate Valid()
      reads this, block
    {
      block.Length == LOGSIZE && n <= LOGSIZE && ValidCore(lay, View())
    }

    function View(): (c: Core)
      reads this, block
      requires n <= block.Length
    {
      Core(disk, cache, block[..n], outstanding, committing)
    }

    /** initlog(): the machine has just booted with `image` on the disk. */
    constructor (lay: Layout, image: Disk)
      requires Recoverable(lay, image)
      ensures this.lay == lay && fresh(block)
      ensures Valid() && View() == Core(Recover(lay, image), map[], [], 0, false) && LogEmpty(lay, disk)
      ensures trail == RecoveryImages(lay, image, |HeaderOf(image[lay.start])| + 1)
    {
      this.lay := lay;
      block := new Word[LOGSIZE];
      n, outstanding, committing, disk, cache, trail := 0, 0, false, image, map[], [];
      new;
      RecoverFromLog();
    }

    /** bread(): the contents of a block as the kernel sees it. */
    function BRead(b: nat): (data: Block)
      reads this
      requires b < |disk|
    {
      Logical(disk, cache, b)
    }

    /** bwrite(): the disk has the block when the call returns, and its buffer is clean. */
    method BWrite(b: nat, data: Block)
      requires b < |disk|
      modifies `disk, `cache, `trail
      ensures disk == old(disk)[b := data] && cache == old(cache) - {b} && trail == old(trail) + [disk]
    {
      disk := disk[b := data];
      cache := cache - {b};
      trail := trail + [disk];
    }

    /** install_trans(): copy committed blocks from the log to their home location. */
    method InstallTrans()
      requires Valid() && Recoverable(lay, disk) && HeaderOf(disk[lay.start]) == block[..n]
      modifies `disk, `cache, `trail
      ensures disk == Installed(lay, old(disk), block[..n], n)
      ensures cache == old(cache) - BlockSet(block[..n], n)
      ensures trail == old(trail) + RecoveryImages(lay, old(disk), n)
    {
      hide Installed, RecoveryImages, HeaderOf;
      ghost var blocks := block[..n];
      var tail := 0;
      while tail < n
        invariant 0 <= tail <= n
        invariant disk == Installed(lay, old(disk), blocks, tail)
        invariant cache == old(cache) - BlockSet(blocks, tail)
        invariant trail == old(trail) + RecoveryImages(lay, old(disk), tail)
      {
        InstallStep(lay, old(disk), blocks, tail);
        var data := BRead(lay.start + tail + 1);
        BWrite(block[tail], data);
        tail := tail + 1;
      }
    }

    /** read_head(): load the on-disk header into memory. */
    method ReadHead()
      requires block.Length == LOGSIZE && Recoverable(lay, disk) && lay.start !in cache
      modifies `n, block
      ensures n <= LOGSIZE && block[..n] == HeaderOf(disk[lay.start])
    {
      var hb := BRead(lay.start);
      n := GetWord(hb, 0);
      var i := 0;
      while i < n
        invariant 0 <= i <= n == GetWord(hb, 0)
        invariant forall j :: 0 <= j < i ==> block[j] == GetWord(hb, 1 + j)
      {
        block[i] := GetWord(hb, 1 + i);
        i := i + 1;
      }
    }

    /** write_head(): store the in-memory header over the header block and write it. */
    method WriteHead()
      requires block.Length == LOGSIZE && n <= LOGSIZE && Fits(lay, disk) && lay.start !in cache
      modifies `disk, `cache, `trail
      ensures disk == WithHeader(lay, old(disk), block[..n]) && cache == old(cache) && trail == old(trail) + [disk]
    {
      hide GetWord, PutWord;
      var hb := BRead(lay.start);
      ghost var start := PutWord(hb, 0, n);
      hb := PutWord(hb, 0, n);
      var i := 0;
      while i < n
        invariant 0 <= i <= n
        invariant hb == StoreEntries(start, block[..n], i)
      {
        hb := PutWord(hb, 1 + i, block[i]);
        i := i + 1;
      }
      BWrite(lay.start, hb);
    }

    /** recover_from_log(). */
    method RecoverFromLog()
      requires block.Length == LOGSIZE && Recoverable(lay, disk) && cache == map[]
      modifies `n, `disk, `cache, `trail, block
      ensures n == 0 && Valid() && LogEmpty(lay, disk)
      ensures disk == Recover(lay, old(disk)) && cache == map[]
      ensures trail == old(trail) + RecoveryImages(lay, old(disk), |HeaderOf(old(disk)[lay.start])| + 1)
    {
      hide HeaderOf, Installed;
      ReadHead();
      InstallTrans();
      n := 0;
      WriteHead();
    }

    /** begin_op(): one pass of the loop; false means the caller sleeps and tries again. */
    method BeginOp() returns (admitted: bool)
      requires Valid()
      modifies `outstanding
      ensures admitted <==> !old(committing) && n + (old(outstanding) + 1) * MAXOPBLOCKS <= LOGSIZE
      ensures outstanding == if admitted then old(outstanding) + 1 else old(outstanding)
      ensures LogImages.BeginOp(old(View())) == if admitted then Done(View()) else Sleep
    {
      if committing {
        return false;
      } else if n + (outstanding + 1) * MAXOPBLOCKS > LOGSIZE {
        return false;
      } else {
        outstanding := outstanding + 1;
        return true;
      }
    }

    /** log_write() of a buffer for block `b` that now holds `data`. */
    method LogWrite(b: Word, data: Block) returns (o: Outcome)
      requires Valid() && HomeBlock(lay, |disk|, b)
      modifies `n, `cache, block
      ensures o.TooBig? <==> old(n) >= LOGSIZE || old(n) >= lay.size - 1
      ensures o.OutsideTrans? <==> !o.TooBig? && outstanding < 1
      ensures o.Done? || o.TooBig? || o.OutsideTrans?
      ensures n <= block.Length && block[..n] == if !o.Done? || b in old(block[..n]) then old(block[..n]) else old(block[..n]) + [b]
      ensures cache == if o.Done? then old(cache)[b as int := data] else old(cache)
      ensures o == LogImages.LogWrite(lay, old(View()), b, data)
      ensures Valid() && View() == if o.Done? then o.core else old(View())
    {
      if n >= LOGSIZE || n >= lay.size - 1 {
        return TooBig;
      }
      if outstanding < 1 {
        return OutsideTrans;
      }
      var i := 0;
      while i < n && block[i] != b
        invariant 0 <= i <= n
        invariant b !in block[..i]
      {
        i := i + 1;
      }
      assert i < n ==> block[i] in block[..n];
      block[i] := b;
      if i == n {
        n := n + 1;
      }
      cache := cache[b as int := data];
      assert block[..n] == Absorb(old(block[..n]), b);
      o := Done(View());
    }

    /** write_log(): copy modified blocks from the cache to the log. */
    method WriteLog()
      requires Valid()
      modifies `disk, `cache, `trail
      ensures disk == Logged(lay, old(disk), old(cache), block[..n], n) && cache == old(cache)
      ensures trail == old(trail) + CommitImages(lay, old(disk), old(cache), block[..n], n)
    {
      ghost var blocks := block[..n];
      var tail := 0;
      while tail < n
        invariant 0 <= tail <= n
        invariant disk == Logged(lay, old(disk), old(cache), blocks, tail) && cache == old(cache)
        invariant trail == old(trail) + CommitImages(lay, old(disk), old(cache), blocks, tail)
      {
        var from := BRead(block[tail]);
        BWrite(lay.start + tail + 1, from);
        tail := tail + 1;
      }
    }

    /** commit(): the disk goes through exactly the images of CommitImages, so that a crash
        after any one of them recovers to the old home blocks or to all of the new ones. */
    method Commit()
      requires Valid() && LogEmpty(lay, disk)
      modifies `n, `disk, `cache, `trail
      ensures Valid() && LogEmpty(lay, disk)
      ensures View() == CommitCore(lay, old(View()), CommitWrites(old(n)))
      ensures trail == old(trail) + CommitImages(lay, old(disk), old(cache), old(block[..n]), CommitWrites(old(n)))
    {
      hide Installed, Logged, HeaderOf, StoreHeader, CommitCore, CommitImages, RecoveryImages, BlockSet;
      if n > 0 {
        CommitShape(lay, View());
        CommitTrail(lay, View());
        WriteLog();
        WriteHead();
        InstallTrans();
        n := 0;
        WriteHead();
      } else {
        CommitNothing(lay, View());
      }
    }

    /** The locked region of end_op(). */
    method EndOpRegion() returns (o: Outcome)
      requires Valid()
      modifies `outstanding, `committing
      ensures o.Done? || o.CommittingPanic?
      ensures o.CommittingPanic? <==> old(committing)
      ensures o.Done? ==> outstanding == old(outstanding) - 1 && (committing <==> outstanding == 0)
      ensures o == LogImages.EndOp(old(View()))
      ensures o.Done? ==> View() == o.core
    {
      outstanding := outstanding - 1;
      if committing {
        return CommittingPanic;
      }
      if outstanding == 0 {
        committing := true;
      }
      o := Done(View());
    }

    /** end_op() with no other process running in between. */
    method EndOp() returns (o: Outcome)
      requires Valid() && !committing && LogEmpty(lay, disk)
      modifies `n, `outstanding, `committing, `disk, `cache, `trail
      ensures o.Done? && !committing && Valid() && LogEmpty(lay, disk)
      ensures outstanding == old(outstanding) - 1
      ensures old(outstanding) == 1 ==>
                View() == CommitCore(lay, old(View()), CommitWrites(old(n))).(outstanding := 0)
      ensures old(outstanding) != 1 ==> View() == old(View()).(outstanding := outstanding)
    {
      o := EndOpRegion();
      if committing {
        Commit();
        committing := false;
      }
    }
  }
}
