/** Free blocks (fs.c): how many there are, how many bmap takes, and how many a read or a write of a file
    needs. */
module Space {
  import opened Blocks
  import opened Volume

  // ---------------------------------------------------------------- what is free

  function Room(sb: Super, v: Vol): (r: int) {
    sb.size - sb.nmeta - |v.owner|
  }

  ghost function Between(lo: nat, hi: nat): (s: set<int>)
    requires lo <= hi
    ensures |s| == hi - lo && forall b :: b in s <==> lo <= b < hi
  {
    if hi == lo then {} else Between(lo, hi - 1) + {hi - 1}
  }

  lemma {:induction false} SameSize(s: set<int>, t: set<int>)
    requires s <= t && |s| == |t|
    ensures s == t
  {
    assert t == s + (t - s);
  }

  /** The blocks that are neither metadata nor owned are the free ones. */
  lemma {:induction false} RoomLeft(sb: Super, v: Vol)
    requires Sound(sb, v)
    ensures Room(sb, v) >= 0 && (Full(sb, v.disk) <==> Room(sb, v) == 0)
  {
    hide AddrOf, InUse;
    var all := Between(sb.nmeta, sb.size);
    assert v.owner.Keys <= all;
    SubsetSize(v.owner.Keys, all);
    if Full(sb, v.disk) {
      forall b | b in all
        ensures b in v.owner.Keys
      {
        var c: nat := b;
        assert InUse(sb, v.disk, c);
      }
      assert v.owner.Keys == all;
    }
    if Room(sb, v) == 0 {
      SameSize(v.owner.Keys, all);
    }
  }

  // ---------------------------------------------------------------- what bmap adds

  /** The blocks bmap has to allocate for block `bn` of inode `i`. */
  function Needs(sb: Super, v: Vol, i: nat, bn: nat): (n: nat)
    requires Shaped(sb, v) && i < sb.ninodes && bn < MAXFILE
  {
    if BlockAddr(sb, v, i, bn) != 0 then 0
    else if bn < NDIRECT || AddrOf(sb, v, Table(i)) != 0 then 1 else 2
  }

  /** `w` is `v` with block `bn` of inode `i` mapped, to a zeroed block if it was not, and no other block of
      the file. */
  ghost predicate Added(sb: Super, v: Vol, w: Vol, i: nat, bn: nat) {
    && Sound(sb, v) && Sound(sb, w) && i < sb.ninodes && bn < MAXFILE
    && BlockAddr(sb, w, i, bn) != 0
    && (forall b :: 0 <= b < MAXFILE && b != bn ==> BlockAddr(sb, w, i, b) == BlockAddr(sb, v, i, b))
    && (AddrOf(sb, w, Table(i)) == 0 <==> AddrOf(sb, v, Table(i)) == 0 && bn < NDIRECT)
    && |w.owner| == |v.owner| + Needs(sb, v, i, bn)
    && (BlockAddr(sb, v, i, bn) == 0 ==> BlockAddr(sb, w, i, bn) < |w.disk| && w.disk[BlockAddr(sb, w, i, bn)] == Zeroed())
  }

  lemma {:induction false} AddedSelf(sb: Super, v: Vol, i: nat, bn: nat)
    requires Sound(sb, v) && i < sb.ninodes && bn < MAXFILE && BlockAddr(sb, v, i, bn) != 0
    ensures Added(sb, v, v, i, bn)
  {
    hide Owned, Marked;
  }

  lemma {:induction false} AddedDirect(sb: Super, v: Vol, w: Vol, i: nat, bn: nat, b: Word)
    requires Sound(sb, v) && Sound(sb, w) && OnlySlot(sb, v, w, Direct(i, bn)) && i < sb.ninodes && bn < NDIRECT
    requires AddrOf(sb, v, Direct(i, bn)) == 0 && AddrOf(sb, w, Direct(i, bn)) == b && b != 0
    requires b as int !in v.owner && w.owner == v.owner[b as int := Direct(i, bn)] && b < |w.disk| && w.disk[b] == Zeroed()
    ensures Added(sb, v, w, i, bn)
  {
    hide Sound, AddrOf, Owned, Marked;
    OneOwner(v.owner, b, Direct(i, bn));
    forall c | 0 <= c < MAXFILE && c != bn
      ensures BlockAddr(sb, w, i, c) == BlockAddr(sb, v, i, c)
    {
      assert SlotOk(sb, FileSlot(i, c)) && FileSlot(i, c) != Direct(i, bn);
    }
    assert SlotOk(sb, Table(i));
  }

  lemma {:induction false} OneOwner(m: map<int, Slot>, b: int, s: Slot)
    requires b !in m
    ensures |m[b := s]| == |m| + 1
  {
    assert m[b := s].Keys == m.Keys + {b};
  }

  /** Inode `i` has an indirect block, and no block of the file has moved. */
  ghost predicate Tabled(sb: Super, v: Vol, w: Vol, i: nat) {
    && Sound(sb, v) && Sound(sb, w) && i < sb.ninodes
    && (forall b :: 0 <= b < MAXFILE ==> BlockAddr(sb, w, i, b) == BlockAddr(sb, v, i, b))
    && AddrOf(sb, w, Table(i)) != 0
    && |w.owner| == |v.owner| + if AddrOf(sb, v, Table(i)) == 0 then 1 else 0
  }

  lemma {:induction false} TabledSelf(sb: Super, v: Vol, i: nat)
    requires Sound(sb, v) && i < sb.ninodes && AddrOf(sb, v, Table(i)) != 0
    ensures Tabled(sb, v, v, i)
  {
    hide Owned, Marked;
  }

  lemma {:induction false} TabledNew(sb: Super, v: Vol, w: Vol, i: nat, b: Word)
    requires Sound(sb, v) && Sound(sb, w) && OnlySlot(sb, v, w, Table(i)) && i < sb.ninodes
    requires AddrOf(sb, v, Table(i)) == 0 && AddrOf(sb, w, Table(i)) == b && b != 0
    requires b as int !in v.owner && w.owner == v.owner[b as int := Table(i)]
    ensures Tabled(sb, v, w, i)
  {
    hide Sound, AddrOf, Owned, Marked;
    OneOwner(v.owner, b, Table(i));
    forall c | 0 <= c < MAXFILE
      ensures BlockAddr(sb, w, i, c) == BlockAddr(sb, v, i, c)
    {
      assert SlotOk(sb, FileSlot(i, c)) && FileSlot(i, c) != Table(i);
    }
  }

  /** An entry of the indirect block, after the indirect block has been seen to. */
  lemma {:induction false} AddedEntry(sb: Super, v: Vol, u: Vol, w: Vol, i: nat, k: nat, b: Word)
    requires Tabled(sb, v, u, i) && Sound(sb, w) && OnlySlot(sb, u, w, Entry(i, k)) && k < NINDIRECT
    requires AddrOf(sb, u, Entry(i, k)) == 0 && AddrOf(sb, w, Entry(i, k)) == b && b != 0
    requires b as int !in u.owner && w.owner == u.owner[b as int := Entry(i, k)] && b < |w.disk| && w.disk[b] == Zeroed()
    ensures Added(sb, v, w, i, k + NDIRECT)
  {
    hide Sound, AddrOf, Owned, Marked;
    SoundShaped(sb, v);
    OneOwner(u.owner, b, Entry(i, k));
    assert FileSlot(i, k + NDIRECT) == Entry(i, k);
    forall c | 0 <= c < MAXFILE && c != k + NDIRECT
      ensures BlockAddr(sb, w, i, c) == BlockAddr(sb, v, i, c)
    {
      assert SlotOk(sb, FileSlot(i, c)) && FileSlot(i, c) != Entry(i, k);
      assert BlockAddr(sb, u, i, c) == BlockAddr(sb, v, i, c);
    }
    assert SlotOk(sb, Table(i));
    assert BlockAddr(sb, u, i, k + NDIRECT) == BlockAddr(sb, v, i, k + NDIRECT);
  }

  /** Nothing was missing after all. */
  lemma {:induction false} AddedFound(sb: Super, v: Vol, u: Vol, i: nat, bn: nat)
    requires Tabled(sb, v, u, i) && bn < MAXFILE && BlockAddr(sb, u, i, bn) != 0
    requires AddrOf(sb, v, Table(i)) != 0
    ensures Added(sb, v, u, i, bn)
  {
    hide Owned, Marked;
  }

  // ---------------------------------------------------------------- what a file needs

  /** How many of the blocks from `lo` below `hi` of inode `i` are not there. */
  function Unmapped(sb: Super, v: Vol, i: nat, lo: nat, hi: nat): (n: nat)
    requires Shaped(sb, v) && i < sb.ninodes && hi <= MAXFILE
  {
    if hi <= lo then 0 else Unmapped(sb, v, i, lo, hi - 1) + if BlockAddr(sb, v, i, hi - 1) == 0 then 1 else 0
  }

  /** The blocks to allocate for the blocks from `lo` below `hi`, the indirect block among them. */
  function NeedsAll(sb: Super, v: Vol, i: nat, lo: nat, hi: nat): (n: nat)
    requires Shaped(sb, v) && i < sb.ninodes && hi <= MAXFILE
  {
    Unmapped(sb, v, i, lo, hi) + if lo < hi && hi > NDIRECT && AddrOf(sb, v, Table(i)) == 0 then 1 else 0
  }

  lemma {:induction false} NeedsGrows(sb: Super, v: Vol, i: nat, lo: nat, a: nat, b: nat)
    requires Shaped(sb, v) && i < sb.ninodes && a <= b <= MAXFILE
    ensures NeedsAll(sb, v, i, lo, a) <= NeedsAll(sb, v, i, lo, b)
    decreases b
  {
    hide Shaped, AddrOf, BlockAddr;
    if a < b {
      NeedsGrows(sb, v, i, lo, a, b - 1);
    }
  }

  /** Blocks `lo` below `b` of the file have been seen to; those from `b` on are as they were. */
  ghost predicate Filling(sb: Super, v: Vol, w: Vol, i: nat, lo: nat, b: nat) {
    && Sound(sb, v) && Sound(sb, w) && i < sb.ninodes && lo <= b <= MAXFILE
    && (forall c :: b <= c < MAXFILE ==> BlockAddr(sb, w, i, c) == BlockAddr(sb, v, i, c))
    && (AddrOf(sb, w, Table(i)) == 0 <==> AddrOf(sb, v, Table(i)) == 0 && (b == lo || b <= NDIRECT))
    && |w.owner| == |v.owner| + NeedsAll(sb, v, i, lo, b)
  }

  lemma {:induction false} FillingStart(sb: Super, v: Vol, i: nat, lo: nat)
    requires Sound(sb, v) && i < sb.ninodes && lo <= MAXFILE
    ensures Filling(sb, v, v, i, lo, lo)
  {
    hide Owned, Marked;
  }

  /** Without an indirect block, the blocks beyond the direct ones are missing. */
  lemma {:induction false} NoTableNoEntry(sb: Super, v: Vol, i: nat, b: nat)
    requires Shaped(sb, v) && i < sb.ninodes && NDIRECT <= b < MAXFILE && AddrOf(sb, v, Table(i)) == 0
    ensures BlockAddr(sb, v, i, b) == 0
  {
  }

  /** What block `b` needs now is what it adds to the need of all. */
  lemma {:induction false} FillingNeeds(sb: Super, v: Vol, w: Vol, i: nat, lo: nat, b: nat)
    requires Filling(sb, v, w, i, lo, b) && b < MAXFILE
    ensures Shaped(sb, v) && Shaped(sb, w)
    ensures Needs(sb, w, i, b) == NeedsAll(sb, v, i, lo, b + 1) - NeedsAll(sb, v, i, lo, b)
  {
    hide AddrOf, Owned, Marked, BlockAddr;
    assert BlockAddr(sb, w, i, b) == BlockAddr(sb, v, i, b);
    if NDIRECT <= b && AddrOf(sb, v, Table(i)) == 0 {
      NoTableNoEntry(sb, v, i, b);
    }
    if NDIRECT <= b && AddrOf(sb, w, Table(i)) == 0 {
      NoTableNoEntry(sb, w, i, b);
    }
  }

  lemma {:induction false} FillingStep(sb: Super, v: Vol, w: Vol, x: Vol, i: nat, lo: nat, b: nat)
    requires Filling(sb, v, w, i, lo, b) && b < MAXFILE && Added(sb, w, x, i, b)
    ensures Filling(sb, v, x, i, lo, b + 1)
  {
    FillingNeeds(sb, v, w, i, lo, b);
    hide AddrOf, Owned, Marked, BlockAddr, NeedsAll, Needs;
    forall c | b + 1 <= c < MAXFILE
      ensures BlockAddr(sb, x, i, c) == BlockAddr(sb, v, i, c)
    {
      assert BlockAddr(sb, x, i, c) == BlockAddr(sb, w, i, c);
    }
  }

  /** A volume with the same owners and the same slots is as good. */
  lemma {:induction false} FillingSame(sb: Super, v: Vol, w: Vol, x: Vol, i: nat, lo: nat, b: nat)
    requires Filling(sb, v, w, i, lo, b) && Sound(sb, x) && x.owner == w.owner
    requires forall s :: SlotOk(sb, s) ==> AddrOf(sb, x, s) == AddrOf(sb, w, s)
    ensures Filling(sb, v, x, i, lo, b)
  {
    hide AddrOf, Owned, Marked, NeedsAll;
    forall c | b <= c < MAXFILE
      ensures BlockAddr(sb, x, i, c) == BlockAddr(sb, v, i, c)
    {
      assert SlotOk(sb, FileSlot(i, c));
      assert BlockAddr(sb, w, i, c) == BlockAddr(sb, v, i, c);
    }
    assert SlotOk(sb, Table(i));
  }

  /** If block `b` finds too little room, all of them would have. */
  lemma {:induction false} FillingStops(sb: Super, v: Vol, w: Vol, i: nat, lo: nat, b: nat, hi: nat)
    requires Filling(sb, v, w, i, lo, b) && b < hi <= MAXFILE
    requires Shaped(sb, w) && Room(sb, w) < Needs(sb, w, i, b)
    ensures Shaped(sb, v) && Room(sb, v) < NeedsAll(sb, v, i, lo, hi)
  {
    hide AddrOf, Owned, Marked, BlockAddr, NeedsAll, Needs;
    FillingNeeds(sb, v, w, i, lo, b);
    NeedsGrows(sb, v, i, lo, b + 1, hi);
  }

  /** If all were found, there was room. */
  lemma {:induction false} FillingDone(sb: Super, v: Vol, w: Vol, i: nat, lo: nat, hi: nat)
    requires Filling(sb, v, w, i, lo, hi)
    ensures Shaped(sb, v) && Room(sb, v) >= NeedsAll(sb, v, i, lo, hi)
  {
    hide AddrOf, Owned, Marked, BlockAddr, NeedsAll;
    RoomLeft(sb, w);
  }

  /** Needs of adjacent ranges add up. */
  lemma {:induction false} UnmappedSplit(sb: Super, v: Vol, i: nat, lo: nat, mid: nat, hi: nat)
    requires Shaped(sb, v) && i < sb.ninodes && lo <= mid <= hi <= MAXFILE
    ensures Unmapped(sb, v, i, lo, hi) == Unmapped(sb, v, i, lo, mid) + Unmapped(sb, v, i, mid, hi)
    decreases hi
  {
    hide Shaped, BlockAddr;
    if mid < hi {
      UnmappedSplit(sb, v, i, lo, mid, hi - 1);
    }
  }

  lemma {:induction false} UnmappedSame(sb: Super, v: Vol, w: Vol, i: nat, lo: nat, hi: nat)
    requires Shaped(sb, v) && Shaped(sb, w) && i < sb.ninodes && hi <= MAXFILE
    requires forall c :: lo <= c < MAXFILE ==> BlockAddr(sb, w, i, c) == BlockAddr(sb, v, i, c)
    ensures Unmapped(sb, w, i, lo, hi) == Unmapped(sb, v, i, lo, hi)
    decreases hi
  {
    hide Shaped, BlockAddr;
    if lo < hi {
      UnmappedSame(sb, v, w, i, lo, hi - 1);
    }
  }

  /** A second range that starts where the first ended, or in its last block, needs what the two together need
      beyond the first. */
  lemma {:induction false} JoinNeeds(sb: Super, v: Vol, w: Vol, i: nat, lo: nat, b: nat, lo2: nat, hi: nat)
    requires Filling(sb, v, w, i, lo, b) && lo < b && lo <= lo2 && b - 1 <= lo2 <= b <= hi <= MAXFILE && lo2 < hi
    requires lo2 == b - 1 ==> Shaped(sb, w) && BlockAddr(sb, w, i, lo2) != 0
    ensures Shaped(sb, v) && Shaped(sb, w)
    ensures NeedsAll(sb, w, i, lo2, hi) == NeedsAll(sb, v, i, lo, hi) - NeedsAll(sb, v, i, lo, b)
  {
    hide AddrOf, Owned, Marked, BlockAddr;
    UnmappedSplit(sb, v, i, lo, b, hi);
    UnmappedSame(sb, v, w, i, b, hi);
    UnmappedSplit(sb, w, i, lo2, b, hi);
    if lo2 == b - 1 {
      assert Unmapped(sb, w, i, lo2, b - 1) == 0 && Unmapped(sb, w, i, lo2, b) == 0;
    }
  }

  lemma {:induction false} FillingJoin(sb: Super, v: Vol, w: Vol, x: Vol, i: nat, lo: nat, b: nat, lo2: nat, hi: nat)
    requires Filling(sb, v, w, i, lo, b) && Filling(sb, w, x, i, lo2, hi)
    requires lo < b && lo <= lo2 && b - 1 <= lo2 <= b <= hi && lo2 < hi
    requires lo2 == b - 1 ==> Shaped(sb, w) && BlockAddr(sb, w, i, lo2) != 0
    ensures Filling(sb, v, x, i, lo, hi)
  {
    JoinNeeds(sb, v, w, i, lo, b, lo2, hi);
    hide AddrOf, Owned, Marked, BlockAddr, NeedsAll;
    forall c | hi <= c < MAXFILE
      ensures BlockAddr(sb, x, i, c) == BlockAddr(sb, v, i, c)
    {
      assert BlockAddr(sb, x, i, c) == BlockAddr(sb, w, i, c);
    }
  }

  /** The number of the block after those that `n` bytes from `off` on are in. */
  function BlocksPast(off: nat, n: nat): (b: nat) {
    if n == 0 then off / BSIZE else (off + n - 1) / BSIZE + 1
  }

  /** The blocks a write of `n` bytes at `off` has to allocate. */
  ghost function WriteNeeds(sb: Super, v: Vol, i: nat, off: nat, n: nat): (k: nat) {
    if n == 0 || !Shaped(sb, v) || i >= sb.ninodes || BlocksPast(off, n) > MAXFILE then 0
    else NeedsAll(sb, v, i, off / BSIZE, BlocksPast(off, n))
  }

  /** Where a write that goes on after `done` bytes finds itself. */
  lemma {:induction false} PastOn(off: nat, done: nat, n: nat)
    requires 0 < done && 0 < n && off + done + n <= MAXBYTES
    ensures off / BSIZE < BlocksPast(off, done) && off / BSIZE <= (off + done) / BSIZE
    ensures BlocksPast(off, done) - 1 <= (off + done) / BSIZE <= BlocksPast(off, done)
    ensures BlocksPast(off, done) <= BlocksPast(off + done, n) == BlocksPast(off, done + n) <= MAXFILE
    ensures (off + done) / BSIZE < BlocksPast(off + done, n)
    ensures BlocksPast(off, done) - 1 == (off + done - 1) / BSIZE
  {
    var q := off + done;
    assert (q - 1) / 512 <= q / 512 <= (q - 1) / 512 + 1;
    assert off / 512 <= (q - 1) / 512 && q / 512 <= (q + n - 1) / 512;
  }

  lemma {:induction false} NeedsMore(sb: Super, v: Vol, i: nat, off: nat, n: nat, m: nat)
    requires n <= m && off + m <= MAXBYTES
    ensures WriteNeeds(sb, v, i, off, n) <= WriteNeeds(sb, v, i, off, m)
  {
    hide Shaped, NeedsAll;
    if 0 < n && Shaped(sb, v) && i < sb.ninodes {
      assert (off + n - 1) / 512 <= (off + m - 1) / 512 < MAXFILE;
      NeedsGrows(sb, v, i, off / BSIZE, BlocksPast(off, n), BlocksPast(off, m));
    }
  }

  lemma {:induction false} PastNone(off: nat)
    ensures BlocksPast(off, 0) == off / BSIZE
  {
  }

  lemma {:induction false} PastBound(off: nat, n: nat)
    requires off + n <= MAXBYTES
    ensures off / BSIZE <= BlocksPast(off, n) <= MAXFILE
  {
  }

  lemma {:induction false} PastStep(off: nat, tot: nat, m: nat, n: nat)
    requires 0 < m && tot + m <= n && (off + tot) % BSIZE + m <= BSIZE && (tot == 0 || (off + tot) % BSIZE == 0)
    requires off + n <= MAXBYTES
    ensures (off + tot) / BSIZE == BlocksPast(off, tot) < MAXFILE
    ensures BlocksPast(off, tot + m) == BlocksPast(off, tot) + 1 <= BlocksPast(off, n)
    ensures (off + tot) % BSIZE + m == BSIZE ==> (off + tot + m) % BSIZE == 0
  {
    var q := off + tot;
    assert q == 512 * (q / 512) + q % 512;
    assert (q + m - 1) / 512 == q / 512;
    assert (q + m - 1) / 512 <= (off + n - 1) / 512;
  }

  /** A zeroed block in place of a hole reads the same. */
  lemma {:induction false} AddedContent(sb: Super, v: Vol, w: Vol, i: nat, bn: nat)
    requires Grown(sb, v, w, i) && Added(sb, v, w, i, bn)
    ensures Content(sb, w, i) == Content(sb, v, i)
  {
    GrownFacts(sb, v, w, i);
    SoundShaped(sb, v);
    SoundShaped(sb, w);
    assert ShapedInode(sb, v.inode[i]);
    assert w.inode[i].size == v.inode[i].size;
    hide Sound, AddrOf, BlockAddr, Shaped, Owned;
    forall p | 0 <= p < v.inode[i].size
      ensures ByteAt(sb, w, i, p) == ByteAt(sb, v, i, p)
    {
      hide Grown;
      assert Mapped(sb, v, i, p) <==> BlockAddr(sb, v, i, p / BSIZE) != 0;
      if Mapped(sb, v, i, p) {
        GrownByte(sb, v, w, i, i, p);
      } else if p / BSIZE != bn {
        assert BlockAddr(sb, w, i, p / BSIZE) == BlockAddr(sb, v, i, p / BSIZE);
      }
    }
    SameContent(sb, v, w, i);
  }

  // ---------------------------------------------------------------- nothing moves

  /** Blocks in use stay where they are. */
  ghost predicate Stays(sb: Super, v: Vol, w: Vol) {
    && Sound(sb, v) && Sound(sb, w) && |w.disk| == |v.disk|
    && forall s :: SlotOk(sb, s) && AddrOf(sb, v, s) != 0 ==> AddrOf(sb, w, s) == AddrOf(sb, v, s)
  }

  lemma {:induction false} StaysGrown(sb: Super, v: Vol, w: Vol, x: Vol, i: nat)
    requires Stays(sb, v, w) && Grown(sb, w, x, i)
    ensures Stays(sb, v, x)
  {
    hide AddrOf, Owned, Marked;
  }

  lemma {:induction false} StaysSame(sb: Super, v: Vol, w: Vol, x: Vol)
    requires Stays(sb, v, w) && Sound(sb, x) && |x.disk| == |w.disk|
    requires forall s :: SlotOk(sb, s) ==> AddrOf(sb, x, s) == AddrOf(sb, w, s)
    ensures Stays(sb, v, x)
  {
    hide AddrOf, Owned, Marked;
  }
}
