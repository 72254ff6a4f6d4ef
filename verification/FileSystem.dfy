/** The block, inode and file layers of fs.c as code over a volume. `logged` collects the blocks
    passed to log_write since the caller last emptied it. */
module FileSystem {
  import opened Options
  import opened Blocks
  import opened Volume
  import opened Space

  const T_DEV := 3

  datatype Mapping = Addr(a: Word) | OutOfBlocks | OutOfRange

  /** `Device` stands for the call being passed on to devsw. */
  datatype ReadResult = Bytes(data: seq<Byte>) | ReadError | ReadDevice | ReadPanic

  datatype WriteResult = Written(n: nat) | WriteError | WriteDevice | WritePanic

  function Min(a: nat, b: nat): (r: nat) { if a < b then a else b }

  /** off + n < off in 32-bit arithmetic. */
  predicate Wraps(off: Word, n: Word)
    ensures Wraps(off, n) <==> off + n >= 0x1_0000_0000
  {
    (off + n) % 0x1_0000_0000 < off
  }

  class Fs {
    const sb: Super
    var disk: Disk           // blocks as bread sees them
    var inode: seq<Inode>    // inodes as cached in memory
    var dinode: seq<Inode>   // inodes as stored in the inode blocks
    var logged: set<int>
    ghost var owner: map<int, Slot>

    ghost function V(): (v: Vol)
      reads this
    {
      Vol(disk, inode, owner)
    }

    ghost predicate Valid()
      reads this
    {
      Sound(sb, V()) && |dinode| == sb.ninodes
    }

    /** A mounted volume, with all inodes read. */
    constructor (sb: Super, disk: Disk, inode: seq<Inode>, ghost owner: map<int, Slot>)
      ensures this.sb == sb && this.disk == disk && this.inode == inode && this.dinode == inode && this.owner == owner
    {
      this.sb, this.disk, this.inode, this.dinode, this.owner := sb, disk, inode, inode, owner;
      logged := {};
    }

    /** balloc(): the lowest free block, marked and zeroed; None is the "out of blocks" panic. */
    method Balloc() returns (r: Option<nat>)
      requires ValidSuper(sb) && sb.size <= |disk|
      modifies `disk, `logged
      ensures Covers(old(disk), disk, logged)
      ensures r.None? ==> disk == old(disk) && logged == old(logged) && Full(sb, disk)
      ensures r.Some? ==>
                && r.value < sb.size && !InUse(sb, old(disk), r.value)
                && (forall c: nat :: c < r.value ==> InUse(sb, old(disk), c))
                && disk == MarkBit(sb, old(disk), r.value)[r.value := Zeroed()]
                && logged == old(logged) + {BBlock(sb, r.value) as int, r.value as int}
    {
      hide InUse, Zeroed, SetBit;
      r := FindFree();
      if r.Some? {
        var b := r.value;
        BitmapIsMeta(sb, b);
        disk := disk[BBlock(sb, b) := SetBit(disk[BBlock(sb, b)], b % BPB)];
        logged := logged + {BBlock(sb, b) as int};
        disk := disk[b := Zeroed()];
        logged := logged + {b as int};
      }
    }

    /** The search of balloc(), one bitmap block at a time. */
    method FindFree() returns (r: Option<nat>)
      requires ValidSuper(sb) && sb.size <= |disk|
      ensures r.None? ==> Full(sb, disk)
      ensures r.Some? ==> r.value < sb.size && !InUse(sb, disk, r.value) && forall c: nat :: c < r.value ==> InUse(sb, disk, c)
    {
      hide InUse, GetBit, BBlock, ValidSuper, Aligned;
      ValidSize(sb);
      AlignedNext(0);
      var b := 0;
      while b < sb.size
        invariant 0 <= b && Aligned(b)
        invariant forall c: nat :: c < b && c < sb.size ==> InUse(sb, disk, c)
        decreases sb.size - b
      {
        BitmapIsMeta(sb, b);
        var limit := if b + BPB <= sb.size then BPB else sb.size - b;
        var bi := FirstClear(disk[BBlock(sb, b)], limit);
        BitmapRun(b, bi);
        if bi < limit {
          BitIs(b, bi);
          return Some(b + bi);
        }
        AlignedNext(b);
        b := b + BPB;
      }
      return None;
    }

    static predicate Aligned(b: nat) {
      b % BPB == 0
    }

    static lemma {:induction false} AlignedNext(b: nat)
      ensures Aligned(0) && (Aligned(b) ==> Aligned(b + BPB))
    {
    }

    /** The inner loop of balloc(): the first clear bit of a bitmap block below `limit`. */
    method FirstClear(bp: Block, limit: nat) returns (bi: nat)
      requires limit <= BPB
      ensures bi <= limit && (bi < limit ==> !GetBit(bp, bi))
      ensures forall j: nat :: j < bi ==> GetBit(bp, j)
    {
      hide GetBit;
      bi := 0;
      while bi < limit && GetBit(bp, bi)
        invariant bi <= limit
        invariant forall j: nat :: j < bi ==> GetBit(bp, j)
      {
        bi := bi + 1;
      }
    }

    /** A run of set bits in a bitmap block is a run of blocks in use. */
    lemma {:induction false} BitmapRun(b: nat, bi: nat)
      requires ValidSuper(sb) && sb.size <= |disk| && Aligned(b) && b < sb.size && bi <= BPB && b + bi <= sb.size
      requires forall j: nat :: j < bi ==> GetBit(disk[BBlock(sb, b)], j)
      ensures forall c: nat :: b <= c < b + bi ==> InUse(sb, disk, c)
    {
      hide GetBit, InUse, Aligned;
      forall c: nat | b <= c < b + bi
        ensures InUse(sb, disk, c)
      {
        BitIs(b, c - b);
      }
    }

    lemma {:induction false} BitIs(b: nat, bi: nat)
      requires ValidSuper(sb) && sb.size <= |disk| && Aligned(b) && bi < BPB && b + bi < sb.size
      ensures BBlock(sb, b + bi) == BBlock(sb, b) < sb.nmeta && (b + bi) % BPB == bi
      ensures InUse(sb, disk, b + bi) <==> GetBit(disk[BBlock(sb, b)], bi)
    {
      BitmapIsMeta(sb, b);
      assert (b + bi) / 4096 == b / 4096 && (b + bi) % 4096 == bi;
    }

    /** bfree(): false is the "freeing free block" panic. */
    method Bfree(b: nat) returns (ok: bool)
      requires ValidSuper(sb) && sb.size <= |disk| && b < sb.size
      modifies `disk, `logged
      ensures ok == InUse(sb, old(disk), b)
      ensures disk == if ok then UnmarkBit(sb, old(disk), b) else old(disk)
      ensures logged == if ok then old(logged) + {BBlock(sb, b) as int} else old(logged)
      ensures Covers(old(disk), disk, logged)
    {
      BitmapIsMeta(sb, b);
      var bp := disk[BBlock(sb, b)];
      if !GetBit(bp, b % BPB) {
        return false;
      }
      disk := disk[BBlock(sb, b) := ClearBit(bp, b % BPB)];
      logged := logged + {BBlock(sb, b) as int};
      return true;
    }

    /** bmap(): the address of block `bn` of inode `i`, which is allocated if there is none. */
    method Bmap(i: nat, bn: nat) returns (r: Mapping)
      requires Valid() && i < sb.ninodes
      modifies `disk, `inode, `owner, `logged
      ensures r.OutOfRange? <==> bn >= MAXFILE
      ensures r.OutOfRange? ==> V() == old(V()) && logged == old(logged)
      ensures bn < MAXFILE && BlockAddr(sb, old(V()), i, bn) != 0 ==> r.Addr? && V() == old(V()) && logged == old(logged)
      ensures r.Addr? ==>
                && Grown(sb, old(V()), V(), i)
                && r.a == BlockAddr(sb, V(), i, bn) && r.a != 0
                && logged == old(logged) + BmapLogs(sb, old(V()), V(), i, bn)
                && Added(sb, old(V()), V(), i, bn)
      ensures old(logged) <= logged && Covers(old(disk), disk, logged)
      ensures r.OutOfBlocks? ==> Full(sb, disk) && bn < MAXFILE && Room(sb, old(V())) < Needs(sb, old(V()), i, bn)
    {
      hide InUse, Marked, Zeroed, Owned, Added, Room, OnlySlot;
      ghost var v := V();
      RoomLeft(sb, v);
      if bn < NDIRECT {
        var addr := inode[i].addrs[bn];
        if addr == 0 {
          var b := Balloc();
          if b.None? {
            return OutOfBlocks;
          }
          addr := b.value;
          GrowDirect(sb, v, i, bn, addr);
          inode := inode[i := inode[i].(addrs := inode[i].addrs[bn := addr])];
          owner := owner[addr as int := Direct(i, bn)];
          AddedDirect(sb, v, V(), i, bn, addr);
        } else {
          GrownSelf(sb, v, i);
          AddedSelf(sb, v, i, bn);
        }
        return Addr(addr);
      }
      if bn < MAXFILE {
        r := BmapIndirect(i, bn - NDIRECT);
        return;
      }
      return OutOfRange;
    }

    /** The second half of bmap(): entry `k` of the indirect block. */
    method BmapIndirect(i: nat, k: nat) returns (r: Mapping)
      requires Valid() && i < sb.ninodes && k < NINDIRECT
      modifies `disk, `inode, `owner, `logged
      ensures !r.OutOfRange?
      ensures AddrOf(sb, old(V()), Entry(i, k)) != 0 ==> r.Addr? && V() == old(V()) && logged == old(logged)
      ensures r.Addr? ==>
                && Grown(sb, old(V()), V(), i)
                && r.a == AddrOf(sb, V(), Entry(i, k)) && r.a != 0
                && logged == old(logged) + BmapLogs(sb, old(V()), V(), i, k + NDIRECT)
                && Added(sb, old(V()), V(), i, k + NDIRECT)
      ensures old(logged) <= logged && Covers(old(disk), disk, logged)
      ensures r.OutOfBlocks? ==> Full(sb, disk) && Room(sb, old(V())) < Needs(sb, old(V()), i, k + NDIRECT)
    {
      hide InUse, Marked, Zeroed, Owned, Grown, Covers, Added, Tabled, OnlySlot, BmapLogs, BBlock, Full, Sound, Shaped, AddrOf, GetWord;
      ghost var v := V();
      TableWord(sb, v, i, k);
      var ok := EnsureTable(i);
      if !ok {
        NoTableNoEntry(sb, v, i, k + NDIRECT);
        return OutOfBlocks;
      }
      GrownFacts(sb, v, V(), i);
      TableWord(sb, V(), i, k);
      r := FindEntry(i, k, v, old(logged));
    }

    /** bmap() once the indirect block is there. `v` is the volume before, and `was` what was logged before. */
    method FindEntry(i: nat, k: nat, ghost v: Vol, ghost was: set<int>) returns (r: Mapping)
      requires Valid() && k < NINDIRECT && Tabled(sb, v, V(), i) && Grown(sb, v, V(), i) && Covers(v.disk, disk, logged)
      requires |inode[i].addrs| == |v.inode[i].addrs| == NDIRECT + 1
      requires v.inode[i].addrs[NDIRECT] != 0 ==> V() == v && logged == was
      requires v.inode[i].addrs[NDIRECT] == 0 ==>
                 var t := inode[i].addrs[NDIRECT]; logged == was + {t as int, BBlock(sb, t) as int}
      modifies `disk, `owner, `logged
      ensures Sound(sb, v) && i < sb.ninodes && !r.OutOfRange?
      ensures AddrOf(sb, v, Entry(i, k)) != 0 ==> r.Addr? && V() == v && logged == was
      ensures r.Addr? ==>
                && Grown(sb, v, V(), i)
                && r.a == AddrOf(sb, V(), Entry(i, k)) && r.a != 0
                && logged == was + BmapLogs(sb, v, V(), i, k + NDIRECT)
                && Added(sb, v, V(), i, k + NDIRECT)
      ensures was <= logged && Covers(v.disk, disk, logged)
      ensures r.OutOfBlocks? ==> Full(sb, disk) && Room(sb, v) < Needs(sb, v, i, k + NDIRECT)
    {
      hide InUse, Marked, Zeroed, Owned, Grown, Covers, Added, Tabled, OnlySlot, BmapLogs, BBlock, Full, Sound, Shaped, AddrOf, GetWord, Room;
      ghost var w := V();
      TabledFacts(sb, v, w, i, k);
      TableWord(sb, v, i, k);
      TableWord(sb, w, i, k);
      var t := inode[i].addrs[NDIRECT];
      var addr := GetWord(disk[t], k);
      if addr == 0 {
        ghost var l1 := logged;
        var b := NewEntry(i, k);
        CoversTrans(v.disk, w.disk, disk, l1, logged);
        if b.None? {
          RoomLeft(sb, w);
          return OutOfBlocks;
        }
        addr := b.value;
        GrownTrans(sb, v, w, V(), i);
        GrownFacts(sb, w, V(), i);
        AddedEntry(sb, v, w, V(), i, k, addr);
        TableWord(sb, V(), i, k);
      } else {
        AddedFound(sb, v, w, i, k + NDIRECT);
      }
      EntryLogs(sb, v, V(), i, k);
      return Addr(addr);
    }

    lemma {:induction false} TableWord(sb: Super, v: Vol, i: nat, k: nat)
      requires Sound(sb, v) && i < sb.ninodes && k < NINDIRECT
      ensures Shaped(sb, v) && |v.inode| == sb.ninodes && |v.inode[i].addrs| == NDIRECT + 1
      ensures AddrOf(sb, v, Table(i)) == v.inode[i].addrs[NDIRECT]
      ensures v.inode[i].addrs[NDIRECT] < |v.disk|
      ensures AddrOf(sb, v, Entry(i, k))
              == if v.inode[i].addrs[NDIRECT] == 0 then 0 else GetWord(v.disk[v.inode[i].addrs[NDIRECT]], k)
    {
      hide Owned, Marked, GetWord;
      assert ShapedInode(sb, v.inode[i]);
    }

    lemma {:induction false} EntryLogs(sb: Super, v: Vol, w: Vol, i: nat, k: nat)
      requires Shaped(sb, v) && Shaped(sb, w) && i < sb.ninodes && k < NINDIRECT
      ensures var a, t := AddrOf(sb, w, Entry(i, k)), w.inode[i].addrs[NDIRECT];
              BmapLogs(sb, v, w, i, k + NDIRECT)
              == if AddrOf(sb, v, Entry(i, k)) != 0 then {}
                 else if v.inode[i].addrs[NDIRECT] != 0 then {BBlock(sb, a) as int, a as int} + {t as int}
                 else {t as int, BBlock(sb, t) as int} + {BBlock(sb, a) as int, a as int} + {t as int}
    {
      hide Shaped, BBlock;
    }

    /** A block allocated for entry `k` of the indirect block, which is written. */
    method NewEntry(i: nat, k: nat) returns (b: Option<Word>)
      requires Valid() && i < sb.ninodes && k < NINDIRECT && inode[i].addrs[NDIRECT] != 0 && AddrOf(sb, V(), Entry(i, k)) == 0
      modifies `disk, `owner, `logged
      ensures b.None? ==> V() == old(V()) && logged == old(logged) && Full(sb, disk)
      ensures b.Some? ==>
                && Grown(sb, old(V()), V(), i) && OnlySlot(sb, old(V()), V(), Entry(i, k))
                && AddrOf(sb, V(), Entry(i, k)) == b.value && b.value != 0 && b.value < |disk| && disk[b.value] == Zeroed()
                && b.value as int !in old(owner) && owner == old(owner)[b.value as int := Entry(i, k)]
                && logged == old(logged) + {BBlock(sb, b.value) as int, b.value as int} + {inode[i].addrs[NDIRECT] as int}
      ensures old(logged) <= logged && Covers(old(disk), disk, logged)
    {
      hide InUse, Marked, Zeroed, Owned, Grown, Covers, OnlySlot, Full;
      ghost var w := V();
      CoversSelf(disk, logged);
      var t := inode[i].addrs[NDIRECT];
      var r := Balloc();
      if r.None? {
        return None;
      }
      GrowEntry(sb, w, i, k, r.value);
      ghost var d2, l2 := disk, logged;
      disk := disk[t := PutWord(disk[t], k, r.value)];
      owner := owner[r.value as int := Entry(i, k)];
      logged := logged + {t as int};
      CoversWrite(d2, t, disk[t], logged);
      CoversTrans(w.disk, d2, disk, l2, logged);
      b := Some(r.value);
    }

    lemma {:induction false} TabledFacts(sb: Super, v: Vol, w: Vol, i: nat, k: nat)
      requires Tabled(sb, v, w, i) && k < NINDIRECT
      ensures Sound(sb, v) && Sound(sb, w) && i < sb.ninodes
      ensures AddrOf(sb, w, Entry(i, k)) == AddrOf(sb, v, Entry(i, k)) == BlockAddr(sb, v, i, k + NDIRECT)
      ensures AddrOf(sb, v, Entry(i, k)) != 0 ==> AddrOf(sb, v, Table(i)) != 0
      ensures AddrOf(sb, w, Table(i)) != 0
      ensures Room(sb, w) == Room(sb, v) - if AddrOf(sb, v, Table(i)) == 0 then 1 else 0
    {
      hide Marked, Owned;
      assert BlockAddr(sb, w, i, k + NDIRECT) == BlockAddr(sb, v, i, k + NDIRECT);
    }

    lemma {:induction false} CoversWrite(d: Disk, a: nat, data: Block, logged: set<int>)
      requires a < |d| && a as int in logged
      ensures Covers(d, d[a := data], logged)
    {
    }

    /** Loads the indirect block, allocating it if necessary. */
    method EnsureTable(i: nat) returns (ok: bool)
      requires Valid() && i < sb.ninodes
      modifies `disk, `inode, `owner, `logged
      ensures ok ==>
                && Grown(sb, old(V()), V(), i) && inode[i].addrs[NDIRECT] != 0
                && (old(inode)[i].addrs[NDIRECT] != 0 ==> V() == old(V()) && logged == old(logged))
                && (old(inode)[i].addrs[NDIRECT] == 0 ==>
                      var t := inode[i].addrs[NDIRECT];
                      && logged == old(logged) + {t as int, BBlock(sb, t) as int}
                      && forall k: nat :: k < NINDIRECT ==> AddrOf(sb, V(), Entry(i, k)) == 0)
                && Tabled(sb, old(V()), V(), i)
      ensures old(logged) <= logged && Covers(old(disk), disk, logged)
      ensures old(inode)[i].addrs[NDIRECT] != 0 ==> ok
      ensures !ok ==> Full(sb, disk) && Room(sb, old(V())) == 0
    {
      hide InUse, Marked, Zeroed, Owned, Tabled, OnlySlot;
      ghost var v := V();
      RoomLeft(sb, v);
      if inode[i].addrs[NDIRECT] == 0 {
        var b := Balloc();
        if b.None? {
          return false;
        }
        GrowTable(sb, v, i, b.value);
        inode := inode[i := inode[i].(addrs := inode[i].addrs[NDIRECT := b.value])];
        owner := owner[b.value as int := Table(i)];
        TabledNew(sb, v, V(), i, b.value);
      } else {
        GrownSelf(sb, v, i);
        TabledSelf(sb, v, i);
      }
      return true;
    }

    /** iupdate(): copy the in-memory inode to the inode block. */
    method Iupdate(i: nat)
      requires i < |inode| && i < |dinode|
      modifies `dinode, `logged
      ensures dinode == old(dinode)[i := inode[i]] && logged == old(logged) + {IBlock(sb, i) as int}
    {
      dinode := dinode[i := inode[i]];
      logged := logged + {IBlock(sb, i) as int};
    }

    /** One iteration of readi(): `m` bytes from byte `p` on, all in one block. */
    method ReadRun(i: nat, p: nat, m: nat) returns (data: Option<seq<Byte>>)
      requires Valid() && i < sb.ninodes && 0 < m && p + m <= inode[i].size && p < MAXBYTES && p % BSIZE + m <= BSIZE
      modifies `disk, `inode, `owner, `logged
      ensures data.Some? ==>
                && Grown(sb, old(V()), V(), i) && Added(sb, old(V()), V(), i, p / BSIZE)
                && Content(sb, V(), i) == Content(sb, old(V()), i) && data.value == Content(sb, V(), i)[p..p + m]
      ensures Needs(sb, old(V()), i, p / BSIZE) == 0 ==> V() == old(V()) && logged == old(logged)
      ensures data.None? ==> Full(sb, disk) && Room(sb, old(V())) < Needs(sb, old(V()), i, p / BSIZE)
      ensures old(logged) <= logged && Covers(old(disk), disk, logged)
    {
      hide Sound, Content, InUse, Grown, BmapLogs, AddrOf, Owned, Added, BlockAddr, Covers, Full, Room;
      ghost var v := V();
      SoundShaped(sb, v);
      assert ShapedInode(sb, inode[i]);
      RoomLeft(sb, v);
      var a := Bmap(i, p / BSIZE);
      if !a.Addr? {
        return None;
      }
      GrownFacts(sb, v, V(), i);
      AddedContent(sb, v, V(), i, p / BSIZE);
      ContentRun(sb, V(), i, p, m);
      data := Some(disk[a.a][p % BSIZE..p % BSIZE + m]);
    }

    /** readi(): exactly the bytes of the file from `off`, clipped to its size. Blocks that are missing
        read as zeros and are allocated by the reading, which ends in the "out of blocks" panic exactly
        when there are too few; a file without holes is not touched. */
    method Readi(i: nat, off: Word, n: Word) returns (r: ReadResult)
      requires Valid() && i < sb.ninodes
      modifies `disk, `inode, `owner, `logged
      ensures r.ReadDevice? <==> old(inode)[i].typ == T_DEV
      ensures r.ReadError? <==> old(inode)[i].typ != T_DEV && (off > old(inode)[i].size || off + n >= 0x1_0000_0000)
      ensures r.ReadDevice? || r.ReadError? ==> V() == old(V()) && logged == old(logged)
      ensures r.Bytes? || r.ReadPanic? ==>
                var first, past := off / BSIZE, BlocksPast(off, Min(n, old(inode)[i].size - off));
                past <= MAXFILE && (r.ReadPanic? <==> Room(sb, old(V())) < NeedsAll(sb, old(V()), i, first, past))
      ensures r.Bytes? ==>
                && Grown(sb, old(V()), V(), i) && Content(sb, V(), i) == Content(sb, old(V()), i)
                && r.data == Content(sb, old(V()), i)[off..Min(off + n, old(inode)[i].size)]
      ensures NoHoles(sb, old(V()), i) ==> V() == old(V()) && logged == old(logged) && !r.ReadPanic?
      ensures old(logged) <= logged && Covers(old(disk), disk, logged)
    {
      CoversSelf(disk, logged);
      hide Sound, Content, Owned, NoHoles, AddrOf, Wraps, Shaped, Grown, NeedsAll, BlockAddr, Room, Covers, BlocksPast;
      ghost var v := V();
      SoundShaped(sb, v);
      SizeBound(sb, v, i);
      if inode[i].typ == T_DEV {
        return ReadDevice;
      }
      if off > inode[i].size || Wraps(off, n) {
        return ReadError;
      }
      var n := if off + n > inode[i].size then inode[i].size - off else n;
      r := ReadAll(i, off, n);
    }

    /** What reading has done to the volume, up to block `b`. */
    static ghost predicate Reading(sb: Super, v: Vol, w: Vol, i: nat, first: nat, b: nat) {
      && Grown(sb, v, w, i) && Shaped(sb, w) && Filling(sb, v, w, i, first, b)
      && Content(sb, w, i) == Content(sb, v, i) && (NoHoles(sb, v, i) ==> w == v)
    }

    static lemma {:induction false} ReadingStart(sb: Super, v: Vol, i: nat, first: nat)
      requires Sound(sb, v) && i < sb.ninodes && first <= MAXFILE
      ensures Reading(sb, v, v, i, first, first)
    {
      hide Content, NoHoles, Filling, Grown;
      FillingStart(sb, v, i, first);
      GrownSelf(sb, v, i);
    }

    static lemma {:induction false} ReadingFacts(sb: Super, v: Vol, w: Vol, i: nat, first: nat, b: nat)
      requires Reading(sb, v, w, i, first, b)
      ensures Sound(sb, v) && Sound(sb, w) && i < sb.ninodes && Shaped(sb, w) && Shaped(sb, v) && Filling(sb, v, w, i, first, b)
      ensures Content(sb, w, i) == Content(sb, v, i) && w.inode[i].size == v.inode[i].size
      ensures NoHoles(sb, v, i) ==> w == v
    {
      hide Content, NoHoles, Filling, Owned, Marked, AddrOf;
    }

    static lemma {:induction false} ReadingStep(sb: Super, v: Vol, w: Vol, x: Vol, i: nat, first: nat, b: nat)
      requires Reading(sb, v, w, i, first, b) && b < MAXFILE && Grown(sb, w, x, i) && Added(sb, w, x, i, b)
      requires Sound(sb, v) && (NoHoles(sb, v, i) ==> x == w)
      ensures Reading(sb, v, x, i, first, b + 1)
    {
      ReadingFacts(sb, v, w, i, first, b);
      GrownFacts(sb, w, x, i);
      SoundShaped(sb, x);
      hide Content, NoHoles, Filling, Grown, Added, Sound, Shaped;
      GrownTrans(sb, v, w, x, i);
      FillingStep(sb, v, w, x, i, first, b);
      AddedContent(sb, w, x, i, b);
    }

    /** One round of readi(), on top of what has been read since the volume was `v`. */
    method ReadNext(i: nat, off: nat, tot: nat, m: nat, n: nat, ghost v: Vol) returns (data: Option<seq<Byte>>)
      requires |dinode| == sb.ninodes && Reading(sb, v, V(), i, off / BSIZE, BlocksPast(off, tot))
      requires i < |v.inode| && off + n <= v.inode[i].size <= MAXBYTES && tot + m <= n && (tot == 0 || (off + tot) % BSIZE == 0)
      requires 0 < m && (off + tot) % BSIZE + m <= BSIZE
      modifies `disk, `inode, `owner, `logged
      ensures BlocksPast(off, n) <= MAXFILE && Shaped(sb, v) && i < sb.ninodes
      ensures data.Some? ==>
                && Reading(sb, v, V(), i, off / BSIZE, BlocksPast(off, tot + m))
                && data.value == Content(sb, v, i)[off + tot..off + tot + m]
      ensures data.None? ==> Room(sb, v) < NeedsAll(sb, v, i, off / BSIZE, BlocksPast(off, n))
      ensures NoHoles(sb, v, i) ==> data.Some? && V() == v && logged == old(logged)
      ensures old(logged) <= logged && Covers(old(disk), disk, logged)
      ensures (off + tot) % BSIZE + m == BSIZE ==> (off + tot + m) % BSIZE == 0
    {
      hide Sound, Content, Owned, NoHoles, AddrOf, Shaped, Grown, Reading, Added, NeedsAll, BlockAddr, Room, Covers, BlocksPast, Full, Filling, Needs;
      ghost var w, b := V(), BlocksPast(off, tot);
      ReadingFacts(sb, v, w, i, off / BSIZE, b);
      PastBound(off, n);
      PastStep(off, tot, m, n);
      RoomLeft(sb, v);
      if NoHoles(sb, v, i) {
        NoNeed(sb, v, i, off + tot);
      }
      data := ReadRun(i, off + tot, m);
      if data.None? {
        FillingStops(sb, v, w, i, off / BSIZE, b, BlocksPast(off, n));
      } else {
        ReadingStep(sb, v, w, V(), i, off / BSIZE, b);
      }
    }

    /** The loop of readi(). */
    method ReadAll(i: nat, off: nat, n: nat) returns (r: ReadResult)
      requires Valid() && i < sb.ninodes && off + n <= inode[i].size <= MAXBYTES
      modifies `disk, `inode, `owner, `logged
      ensures BlocksPast(off, n) <= MAXFILE && (r.Bytes? || r.ReadPanic?)
      ensures r.ReadPanic? <==> Room(sb, old(V())) < NeedsAll(sb, old(V()), i, off / BSIZE, BlocksPast(off, n))
      ensures r.Bytes? ==>
                && Grown(sb, old(V()), V(), i) && Content(sb, V(), i) == Content(sb, old(V()), i)
                && r.data == Content(sb, old(V()), i)[off..off + n]
      ensures NoHoles(sb, old(V()), i) ==> V() == old(V()) && logged == old(logged) && !r.ReadPanic?
      ensures old(logged) <= logged && Covers(old(disk), disk, logged)
    {
      CoversSelf(disk, logged);
      hide Sound, Content, Owned, NoHoles, AddrOf, Shaped, Grown, Reading, NeedsAll, BlockAddr, Room, Covers, BlocksPast, Filling;
      ghost var v := V();
      SoundShaped(sb, v);
      ghost var c := Content(sb, v, i);
      ghost var first, past := off / BSIZE, BlocksPast(off, n);
      PastBound(off, n);
      PastNone(off);
      ReadingStart(sb, v, i, first);
      var tot, dst := 0, [];
      while tot < n
        invariant 0 <= tot <= n && |dinode| == sb.ninodes
        invariant Reading(sb, v, V(), i, first, BlocksPast(off, tot))
        invariant tot == 0 || tot == n || (off + tot) % BSIZE == 0
        invariant NoHoles(sb, v, i) ==> logged == old(logged)
        invariant dst == c[off..off + tot]
        invariant old(logged) <= logged && Covers(old(disk), disk, logged)
      {
        var m := Min(n - tot, BSIZE - (off + tot) % BSIZE);
        ghost var d0, l0 := disk, logged;
        var data := ReadNext(i, off, tot, m, n, v);
        CoversTrans(old(disk), d0, disk, l0, logged);
        if data.None? {
          return ReadPanic;
        }
        assert c[off..off + tot] + c[off + tot..off + tot + m] == c[off..off + tot + m];
        dst := dst + data.value;
        tot := tot + m;
      }
      ReadingFacts(sb, v, V(), i, first, past);
      ReadingGrown(sb, v, V(), i, first, past);
      FillingDone(sb, v, V(), i, first, past);
      return Bytes(dst);
    }

    static lemma {:induction false} ReadingGrown(sb: Super, v: Vol, w: Vol, i: nat, first: nat, b: nat)
      requires Reading(sb, v, w, i, first, b)
      ensures Grown(sb, v, w, i)
    {
    }

    lemma {:induction false} SizeBound(sb: Super, v: Vol, i: nat)
      requires Shaped(sb, v) && i < sb.ninodes
      ensures v.inode[i].size <= MAXBYTES && |v.inode[i].addrs| == NDIRECT + 1
    {
      assert ShapedInode(sb, v.inode[i]);
    }

    /** A byte of a file without holes has its block. */
    lemma {:induction false} NoNeed(sb: Super, v: Vol, i: nat, p: nat)
      requires Shaped(sb, v) && i < sb.ninodes && NoHoles(sb, v, i) && p < v.inode[i].size && p < MAXBYTES
      ensures Needs(sb, v, i, p / BSIZE) == 0
    {
      hide Shaped;
      assert Mapped(sb, v, i, p);
    }

    /** One iteration of writei(): `data` goes in at byte `q`, all in one block. The volume is `w`
        between bmap and the copy. False is the "out of blocks" panic. */
    method WriteRun(i: nat, q: nat, data: seq<Byte>) returns (ok: bool, ghost w: Vol)
      requires Valid() && i < sb.ninodes && q < MAXBYTES && q % BSIZE + |data| <= BSIZE
      modifies `disk, `inode, `owner, `logged
      ensures ok ==>
                && Grown(sb, old(V()), w, i) && SoundMapped(sb, w, i, q)
                && (SoundMapped(sb, old(V()), i, q) ==> w == old(V()))
                && BlockAddr(sb, w, i, q / BSIZE) < |w.disk|
                && V() == SpliceFile(sb, w, i, q, data)
                && logged == old(logged) + BmapLogs(sb, old(V()), w, i, q / BSIZE) + {SoundAddr(sb, w, i, q / BSIZE)}
                && Added(sb, old(V()), w, i, q / BSIZE)
      ensures old(logged) <= logged && Covers(old(disk), disk, logged)
      ensures !ok ==> Full(sb, disk) && Room(sb, old(V())) < Needs(sb, old(V()), i, q / BSIZE)
    {
      hide Sound, InUse, Grown, BmapLogs, AddrOf, Owned, Splice, Covers, Added, Room, Needs, Full;
      SoundShaped(sb, V());
      var r := Bmap(i, q / BSIZE);
      w := V();
      if !r.Addr? {
        return false, w;
      }
      GrownFacts(sb, old(V()), w, i);
      SoundShaped(sb, w);
      BlockAddrBound(sb, w, i, q / BSIZE);
      ghost var l1 := logged;
      disk := disk[r.a := Splice(disk[r.a], q % BSIZE, data)];
      logged := logged + {r.a as int};
      CoversWrite(w.disk, r.a, disk[r.a], logged);
      CoversTrans(old(disk), w.disk, disk, l1, logged);
      ok := true;
    }

    lemma {:induction false} CoversSelf(d: Disk, logged: set<int>)
      ensures Covers(d, d, logged)
    {
    }

    /** The loop of writei(). */
    method WriteAll(i: nat, src: seq<Byte>, off: nat) returns (ok: bool, ghost data: set<int>, ghost marks: set<int>)
      requires Valid() && SoundNoHoles(sb, V(), i) && off <= inode[i].size && off + |src| <= MAXBYTES
      modifies `disk, `inode, `owner, `logged
      ensures ok ==> Progress(sb, old(V()), V(), i, off, src, |src|, old(logged), logged, data, marks) && Stays(sb, old(V()), V())
      ensures ok ==> Filling(sb, old(V()), V(), i, off / BSIZE, BlocksPast(off, |src|))
      ensures old(logged) <= logged && Covers(old(disk), disk, logged)
      ensures !ok ==> Full(sb, disk)
      ensures BlocksPast(off, |src|) <= MAXFILE
      ensures !ok <==> Room(sb, old(V())) < NeedsAll(sb, old(V()), i, off / BSIZE, BlocksPast(off, |src|))
    {
      CoversSelf(disk, logged);
      hide Covers, Sound, NoHoles, Progress, Grown, BmapLogs, SpliceFile, SoundMapped, Full, SoundAddr, BlockAddr, Filling, Added, NeedsAll, Needs, Room, BlocksPast, Stays;
      data, marks := {}, {};
      ghost var v := V();
      ghost var first, past := off / BSIZE, BlocksPast(off, |src|);
      PastBound(off, |src|);
      PastNone(off);
      FillingStart(sb, v, i, first);
      StaysSelf(sb, v);
      ProgressStart(sb, v, i, off, src, logged);
      var tot := 0;
      while tot < |src|
        invariant 0 <= tot <= |src|
        invariant |dinode| == sb.ninodes && old(logged) <= logged && Covers(old(disk), disk, logged)
        invariant Progress(sb, v, V(), i, off, src, tot, old(logged), logged, data, marks)
        invariant Filling(sb, v, V(), i, first, BlocksPast(off, tot)) && Stays(sb, v, V())
        invariant tot == 0 || tot == |src| || (off + tot) % BSIZE == 0
      {
        var m := Min(|src| - tot, BSIZE - (off + tot) % BSIZE);
        ghost var w0, logged0 := V(), logged;
        ProgressSound(sb, v, w0, i, off, src, tot, old(logged), logged, data, marks);
        ghost var w;
        PastStep(off, tot, m, |src|);
        ok, w := WriteRun(i, off + tot, src[tot..tot + m]);
        CoversTrans(old(disk), w0.disk, disk, logged0, logged);
        if !ok {
          FillingStops(sb, v, w0, i, first, BlocksPast(off, tot), past);
          return;
        }
        FillingStep(sb, v, w0, w, i, first, BlocksPast(off, tot));
        StaysGrown(sb, v, w0, w, i);
        Spliced(sb, v, w, V(), i, off + tot, src[tot..tot + m], first, BlocksPast(off, tot + m));
        data, marks := ProgressStep(sb, v, w0, w, i, off, src, tot, m, old(logged), logged0, data, marks);
        tot := tot + m;
      }
      FillingDone(sb, v, V(), i, first, past);
      ok := true;
    }

    lemma {:induction false} StaysSelf(sb: Super, v: Vol)
      requires Sound(sb, v)
      ensures Stays(sb, v, v)
    {
      hide Owned, Marked, AddrOf;
    }

    /** Putting data into a block that is there takes no block and moves none. */
    lemma {:induction false} Spliced(sb: Super, v: Vol, w: Vol, x: Vol, i: nat, q: nat, data: seq<Byte>, first: nat, b: nat)
      requires Filling(sb, v, w, i, first, b) && Stays(sb, v, w) && SoundMapped(sb, w, i, q) && q % BSIZE + |data| <= BSIZE
      requires BlockAddr(sb, w, i, q / BSIZE) < |w.disk| && x == SpliceFile(sb, w, i, q, data)
      ensures Filling(sb, v, x, i, first, b) && Stays(sb, v, x)
    {
      SpliceSound(sb, w, i, q, data);
      hide Sound, Stays, Filling, AddrOf;
      FillingSame(sb, v, w, x, i, first, b);
      StaysSame(sb, v, w, x);
    }

    /** The inode blocks of all on-disk inodes that differ from `was` have been logged. */
    ghost predicate InodesLogged(was: seq<Inode>)
      reads this
    {
      |dinode| == |was| && forall j :: 0 <= j < |was| && dinode[j] != was[j] ==> IBlock(sb, j) as int in logged
    }

    /** writei(): the contents become the old ones with `src` put in at `off`, every other file keeps
        its contents, the inode is written back exactly when it changed, every block and inode block
        that changed has been logged, and the blocks logged are bounded by what a write of this size and
        alignment may touch. */
    method Writei(i: nat, src: seq<Byte>, off: Word) returns (r: WriteResult, ghost data: set<int>, ghost marks: set<int>)
      requires Valid() && i < sb.ninodes && NoHoles(sb, V(), i) && |src| < 0x1_0000_0000
      modifies `disk, `inode, `dinode, `owner, `logged
      ensures r.WriteDevice? <==> old(inode)[i].typ == T_DEV
      ensures r.WriteError? <==>
                old(inode)[i].typ != T_DEV && (off > old(inode)[i].size || off + |src| > MAXBYTES)
      ensures r.WriteDevice? || r.WriteError? ==> V() == old(V()) && dinode == old(dinode) && logged == old(logged)
      ensures r.WritePanic? ==> Full(sb, disk)
      ensures r.Written? || r.WritePanic? ==>
                && BlocksPast(off, |src|) <= MAXFILE
                && (r.WritePanic? <==> Room(sb, old(V())) < NeedsAll(sb, old(V()), i, off / BSIZE, BlocksPast(off, |src|)))
      ensures old(logged) <= logged && Covers(old(disk), disk, logged) && InodesLogged(old(dinode))
      ensures r.Written? ==>
                && r.n == |src| && Valid() && WroteFile(sb, old(V()), V(), i, off, src) && Stays(sb, old(V()), V())
                && Filling(sb, old(V()), V(), i, off / BSIZE, BlocksPast(off, |src|))
                && dinode == (if inode[i] == old(inode)[i] then old(dinode) else old(dinode)[i := inode[i]])
                && ShapedInode(sb, old(inode)[i]) && ShapedInode(sb, inode[i])
                && Budget(old(logged) + {IBlock(sb, i) as int}, logged, TableSet(old(inode)[i]), TableSet(inode[i]), off, |src|, data, marks)
    {
      CoversSelf(disk, logged);
      hide Sound, Content, NoHoles, Wraps, Progress, Budget, WroteFile, Full, Covers, Stays, NeedsAll, Room, BlocksPast, Filling;
      data, marks := {}, {};
      ghost var v := V();
      SoundShaped(sb, v);
      assert ShapedInode(sb, inode[i]);
      if inode[i].typ == T_DEV {
        return WriteDevice, data, marks;
      }
      if off > inode[i].size || Wraps(off, |src|) {
        return WriteError, data, marks;
      }
      if off + |src| > MAXBYTES {
        return WriteError, data, marks;
      }
      var ok;
      ok, data, marks := WriteAll(i, src, off);
      if !ok {
        return WritePanic, data, marks;
      }
      ghost var w, logged1 := V(), logged;
      ProgressSound(sb, v, w, i, off, src, |src|, old(logged), logged, data, marks);
      ProgressInode(sb, v, w, i, off, src, old(logged), logged, data, marks);
      if |src| > 0 && off + |src| > inode[i].size {
        ProgressDone(sb, v, w, i, off, src, off + |src|, old(logged), logged, data, marks);
        StaysSize(sb, v, w, i, off + |src|);
        FillingSize(sb, v, w, i, off / BSIZE, BlocksPast(off, |src|), off + |src|);
        inode := inode[i := inode[i].(size := off + |src|)];
        Iupdate(i);
        CoversSelf(disk, logged);
        CoversTrans(old(disk), disk, disk, logged1, logged);
      } else {
        ProgressDone(sb, v, w, i, off, src, inode[i].size, old(logged), logged, data, marks);
        assert SetSize(w, i, inode[i].size) == w;
      }
      BudgetInode(old(logged), logged1, logged, TableSet(v.inode[i]), TableSet(inode[i]), off, |src|, data, marks, IBlock(sb, i));
      WroteSound(sb, v, V(), i, off, src);
      return Written(|src|), data, marks;
    }

    lemma {:induction false} StaysSize(sb: Super, v: Vol, w: Vol, i: nat, size: nat)
      requires Stays(sb, v, w) && i < sb.ninodes && size <= MAXBYTES
      ensures |w.inode| == sb.ninodes && Stays(sb, v, SetSize(w, i, size))
    {
      hide Stays;
      assert Sound(sb, w) by { StaysSound(sb, v, w); }
      SizeSound(sb, w, i, size);
      hide Sound, AddrOf;
      StaysSame(sb, v, w, SetSize(w, i, size));
    }

    lemma {:induction false} FillingSize(sb: Super, v: Vol, w: Vol, i: nat, lo: nat, b: nat, size: nat)
      requires Filling(sb, v, w, i, lo, b) && Sound(sb, w) && size <= MAXBYTES
      ensures i < |w.inode| && Filling(sb, v, SetSize(w, i, size), i, lo, b)
    {
      hide Owned, Marked, NeedsAll, AddrOf, BlockAddr;
      SizeSound(sb, w, i, size);
      FillingSame(sb, v, w, SetSize(w, i, size), i, lo, b);
    }

    lemma {:induction false} StaysSound(sb: Super, v: Vol, w: Vol)
      requires Stays(sb, v, w)
      ensures Sound(sb, v) && Sound(sb, w)
    {
    }

    /** An iteration of the first loop of itrunc(). */
    method FreeDirect(i: nat, k: nat) returns (ok: bool)
      requires Valid() && i < sb.ninodes && k < NDIRECT
      modifies `disk, `inode, `owner, `logged
      ensures ok && Valid() && Shrunk(sb, old(V()), V(), i)
      ensures inode == old(inode)[i := old(inode)[i].(addrs := old(inode)[i].addrs[k := 0])]
      ensures old(logged) <= logged && Covers(old(disk), disk, logged)
    {
      CoversSelf(disk, logged);
      hide Sound, InUse, Limbo, Owned, Covers;
      ghost var v := V();
      SoundShaped(sb, v);
      assert ShapedInode(sb, inode[i]);
      ok := true;
      var a := inode[i].addrs[k];
      if a != 0 {
        LimboDirect(sb, v, i, k);
        ghost var w := SetAddr(v, i, k, 0).(owner := v.owner - {a as int});
        LimboFree(sb, w, {a as int}, a);
        ok := Bfree(a);
        inode := inode[i := inode[i].(addrs := inode[i].addrs[k := 0])];
        owner := owner - {a as int};
        assert {a as int} - {a as int} == {};
        LimboDone(sb, V());
        OwnerBounds(sb, v);
      } else {
        assert inode[i].addrs[k := 0] == inode[i].addrs;
        assert inode[i := inode[i]] == inode;
      }
    }

    lemma {:induction false} OwnerBounds(sb: Super, v: Vol)
      requires Sound(sb, v)
      ensures forall a :: a in v.owner ==> sb.nmeta <= a < sb.size <= |v.disk|
    {
      hide Marked;
    }

    /** The loop of itrunc() over the entries of the indirect block `a`; `w` is the volume as it will
        be once the indirect block is dropped. */
    method FreeEntries(i: nat, a: Block, ghost v: Vol, ghost w: Vol) returns (ok: bool)
      requires v == V() && Valid() && i < sb.ninodes && |inode[i].addrs| == NDIRECT + 1
      requires inode[i].addrs[NDIRECT] != 0 && inode[i].addrs[NDIRECT] < |disk| && a == disk[inode[i].addrs[NDIRECT]]
      requires Limbo(sb, w, Indirect(v, i)) && w.disk == disk
      modifies `disk, `logged
      ensures ok && |disk| == |old(disk)| && Limbo(sb, w.(disk := disk), Indirect(v, i) - Volume.Listed(a, NINDIRECT))
      ensures forall b :: sb.nmeta <= b < |disk| ==> disk[b] == old(disk)[b]
      ensures old(logged) <= logged && Covers(old(disk), disk, logged)
    {
      CoversSelf(disk, logged);
      hide Sound, InUse, Limbo, Owned, Indirect, Shaped, UnmarkBit, Covers, GetWord;
      ok := true;
      assert w.(disk := disk) == w;
      assert Indirect(v, i) - {} == Indirect(v, i);
      var j := 0;
      while j < NINDIRECT
        invariant 0 <= j <= NINDIRECT && ok && |disk| == |old(disk)|
        invariant Limbo(sb, w.(disk := disk), Indirect(v, i) - Volume.Listed(a, j))
        invariant forall b :: sb.nmeta <= b < |disk| ==> disk[b] == old(disk)[b]
        invariant old(logged) <= logged && Covers(old(disk), disk, logged)
      {
        ghost var left := Indirect(v, i) - Volume.Listed(a, j);
        LimboShape(sb, w.(disk := disk), left);
        EntryOwned(sb, v, i, j);
        var b := GetWord(a, j);
        if b != 0 {
          LimboFree(sb, w.(disk := disk), left, b);
          ghost var d1, l1 := disk, logged;
          ok := Bfree(b);
          CoversTrans(old(disk), d1, disk, l1, logged);
          assert left - {b as int} == Indirect(v, i) - Volume.Listed(a, j + 1);
        } else {
          assert left == Indirect(v, i) - Volume.Listed(a, j + 1);
        }
        j := j + 1;
      }
    }

    lemma {:induction false} LimboShape(sb: Super, v: Vol, limbo: set<int>)
      requires Limbo(sb, v, limbo)
      ensures ValidSuper(sb) && sb.size <= |v.disk|
    {
    }

    /** The second half of itrunc(): the entries of the indirect block, then the block itself. */
    method FreeIndirect(i: nat) returns (ok: bool)
      requires Valid() && i < sb.ninodes && inode[i].addrs[NDIRECT] != 0
      modifies `disk, `inode, `owner, `logged
      ensures ok && Valid() && Shrunk(sb, old(V()), V(), i)
      ensures inode == old(inode)[i := old(inode)[i].(addrs := old(inode)[i].addrs[NDIRECT := 0])]
      ensures old(logged) <= logged && Covers(old(disk), disk, logged)
    {
      hide Sound, InUse, Limbo, Owned, Volume.Listed, UnmarkBit, Covers;
      ghost var v := V();
      SoundShaped(sb, v);
      assert ShapedInode(sb, inode[i]);
      OwnerBounds(sb, v);
      LimboTable(sb, v, i);
      OnlyTableLeft(sb, v, i);
      ghost var w := SetAddr(v, i, NDIRECT, 0).(owner := v.owner - Indirect(v, i));
      var t := inode[i].addrs[NDIRECT];
      ok := FreeEntries(i, disk[t], v, w);
      LimboFree(sb, w.(disk := disk), {t as int}, t);
      ghost var d1, l1 := disk, logged;
      ok := Bfree(t);
      CoversTrans(old(disk), d1, disk, l1, logged);
      inode := inode[i := inode[i].(addrs := inode[i].addrs[NDIRECT := 0])];
      owner := w.owner;
      assert {t as int} - {t as int} == {};
      LimboDone(sb, V());
    }

    /** itrunc(): every block of inode `i` is freed exactly once, without ever reaching the "freeing
        free block" panic (which `ok` reports), and no other file changes. */
    method Itrunc(i: nat) returns (ok: bool)
      requires Valid() && i < sb.ninodes
      modifies `disk, `inode, `dinode, `owner, `logged
      ensures ok && Valid() && Shrunk(sb, old(V()), V(), i)
      ensures inode == old(inode)[i := old(inode)[i].(addrs := seq(NDIRECT + 1, _ => 0), size := 0)]
      ensures dinode == old(dinode)[i := inode[i]]
      ensures old(logged) <= logged && Covers(old(disk), disk, logged) && InodesLogged(old(dinode))
      ensures forall a :: a in owner <==> a in old(owner) && old(owner)[a].ino != i
      ensures forall j :: 0 <= j < sb.ninodes && j != i && SoundNoHoles(sb, old(V()), j) ==>
                SoundNoHoles(sb, V(), j) && Content(sb, V(), j) == Content(sb, old(V()), j)
    {
      CoversSelf(disk, logged);
      hide Sound, Shrunk, SoundNoHoles, Content, Shaped, Covers;
      ghost var v := V();
      TruncatingStart(i);
      var k := 0;
      ok := true;
      while k < NDIRECT
        invariant 0 <= k <= NDIRECT && ok && Valid()
        invariant Shrunk(sb, v, V(), i) && Truncating(v, i, k) && dinode == old(dinode)
        invariant old(logged) <= logged && Covers(old(disk), disk, logged)
      {
        ghost var w, l1 := V(), logged;
        ok := FreeDirect(i, k);
        CoversTrans(old(disk), w.disk, disk, l1, logged);
        ShrunkTrans(sb, v, w, V(), i);
        k := k + 1;
      }
      if inode[i].addrs[NDIRECT] != 0 {
        ghost var w, l1 := V(), logged;
        ok := FreeIndirect(i);
        CoversTrans(old(disk), w.disk, disk, l1, logged);
        ShrunkTrans(sb, v, w, V(), i);
      }
      ghost var w, l1 := V(), logged;
      ShrunkSize(sb, w, i);
      inode := inode[i := inode[i].(size := 0)];
      ShrunkTrans(sb, v, w, V(), i);
      ShrunkToNothing(sb, v, V(), i);
      Iupdate(i);
      CoversSelf(disk, logged);
      CoversTrans(old(disk), disk, disk, l1, logged);
      assert inode[i].addrs == seq(NDIRECT + 1, _ => 0);
      ShrunkValid(v, i);
    }

    /** The direct slots up to `k` are empty, and nothing else about the inodes has changed. */
    ghost predicate Truncating(v: Vol, i: nat, k: nat)
      reads this
    {
      && i < |v.inode| == |inode| && |v.inode[i].addrs| == NDIRECT + 1 == |inode[i].addrs|
      && inode == v.inode[i := v.inode[i].(addrs := inode[i].addrs)]
      && forall j :: 0 <= j < k && j < NDIRECT ==> inode[i].addrs[j] == 0
    }

    lemma {:induction false} TruncatingStart(i: nat)
      requires Valid() && i < sb.ninodes
      ensures Shrunk(sb, V(), V(), i) && Truncating(V(), i, 0) && |inode| == sb.ninodes
    {
      hide Sound;
      SoundShaped(sb, V());
      assert ShapedInode(sb, inode[i]);
      assert inode == inode[i := inode[i]];
    }

    lemma {:induction false} ShrunkValid(v: Vol, i: nat)
      requires Shrunk(sb, v, V(), i)
      ensures Sound(sb, V())
    {
    }
  }
}
