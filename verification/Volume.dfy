/** The on-disk structure of fs.c: which slot of which inode owns which block, what the free
    bitmap says, and the byte sequence each inode stands for. */
module Volume {
  import opened Blocks

  const NDIRECT := 12
  const NINDIRECT := 128
  const MAXFILE := NDIRECT + NINDIRECT
  const MAXBYTES := MAXFILE * BSIZE
  const IPB := 8

  /** `nmeta` counts the blocks before the data blocks: boot, super, log, inodes, bitmap. */
  datatype Super = Super(size: nat, nmeta: nat, ninodes: nat, inodestart: nat, bmapstart: nat)

  datatype Inode = Inode(typ: int, nlink: int, size: nat, addrs: seq<Word>)

  /** A place that can hold a block number. */
  datatype Slot = Direct(ino: nat, k: nat) | Table(ino: nat) | Entry(ino: nat, k: nat)

  /** Blocks as bread sees them, inodes as held in memory, and who owns each data block. */
  datatype Vol = Vol(disk: Disk, inode: seq<Inode>, owner: map<int, Slot>)

  predicate ValidSuper(sb: Super) {
    && 0 < sb.nmeta <= sb.size <= 0x1_0000_0000
    && sb.bmapstart + (sb.size - 1) / BPB < sb.nmeta
    && sb.inodestart + sb.ninodes / IPB < sb.nmeta
  }

  predicate ShapedInode(sb: Super, ip: Inode) {
    |ip.addrs| == NDIRECT + 1 && ip.size <= MAXBYTES && forall k :: 0 <= k <= NDIRECT ==> ip.addrs[k] < sb.size
  }

  predicate Shaped(sb: Super, v: Vol) {
    && ValidSuper(sb) && sb.size <= |v.disk| && |v.inode| == sb.ninodes
    && forall i :: 0 <= i < sb.ninodes ==> ShapedInode(sb, v.inode[i])
  }

  predicate SlotOk(sb: Super, s: Slot) {
    s.ino < sb.ninodes && (s.Direct? ==> s.k < NDIRECT) && (s.Entry? ==> s.k < NINDIRECT)
  }

  /** The block number a slot holds; 0 means none. */
  function AddrOf(sb: Super, v: Vol, s: Slot): (a: Word)
    requires Shaped(sb, v) && SlotOk(sb, s)
  {
    var ip := v.inode[s.ino];
    match s
    case Direct(_, k) => ip.addrs[k]
    case Table(_) => ip.addrs[NDIRECT]
    case Entry(_, k) => if ip.addrs[NDIRECT] == 0 then 0 else GetWord(v.disk[ip.addrs[NDIRECT]], k)
  }

  /** Every block number in use is in exactly one slot, and `owner` says which. */
  ghost predicate Owned(sb: Super, v: Vol)
    requires Shaped(sb, v)
  {
    && (forall s :: SlotOk(sb, s) && AddrOf(sb, v, s) != 0 ==>
          AddrOf(sb, v, s) in v.owner && v.owner[AddrOf(sb, v, s)] == s)
    && (forall a :: a in v.owner ==>
          sb.nmeta <= a < sb.size && SlotOk(sb, v.owner[a]) && AddrOf(sb, v, v.owner[a]) == a)
  }

  function BBlock(sb: Super, b: nat): (r: nat) { b / BPB + sb.bmapstart }

  function IBlock(sb: Super, i: nat): (r: nat) { i / IPB + sb.inodestart }

  /** The bitmap's opinion of block `b`. */
  predicate InUse(sb: Super, d: Disk, b: nat)
    requires ValidSuper(sb) && sb.size <= |d| && b < sb.size
  {
    GetBit(d[BBlock(sb, b)], b % BPB)
  }

  /** The bitmap marks the metadata blocks and exactly the blocks in `used`. */
  ghost predicate Marked(sb: Super, d: Disk, used: set<int>)
    requires ValidSuper(sb) && sb.size <= |d|
  {
    forall b: nat :: b < sb.size ==> (InUse(sb, d, b) <==> b < sb.nmeta || b in used)
  }

  ghost predicate Sound(sb: Super, v: Vol) {
    Shaped(sb, v) && Owned(sb, v) && Marked(sb, v.disk, v.owner.Keys)
  }

  // ---------------------------------------------------------------- slots under updates

  function SetAddr(v: Vol, i: nat, k: nat, b: Word): (r: Vol)
    requires i < |v.inode| && k < |v.inode[i].addrs|
  {
    v.(inode := v.inode[i := v.inode[i].(addrs := v.inode[i].addrs[k := b])])
  }

  /** A free block put into an empty direct slot. */
  lemma {:induction false} TakeDirect(sb: Super, v: Vol, i: nat, k: nat, b: Word)
    requires Shaped(sb, v) && Owned(sb, v) && i < sb.ninodes && k < NDIRECT && v.inode[i].addrs[k] == 0
    requires sb.nmeta <= b < sb.size && b !in v.owner
    ensures var v' := SetAddr(v, i, k, b).(owner := v.owner[b as int := Direct(i, k)]);
            Shaped(sb, v') && Owned(sb, v') && forall s :: SlotOk(sb, s) && s != Direct(i, k) ==> AddrOf(sb, v', s) == AddrOf(sb, v, s)
  {
    var v' := SetAddr(v, i, k, b).(owner := v.owner[b as int := Direct(i, k)]);
    forall j | 0 <= j < sb.ninodes
      ensures ShapedInode(sb, v'.inode[j])
    {
      assert ShapedInode(sb, v.inode[j]);
    }
    forall s | SlotOk(sb, s) && s != Direct(i, k)
      ensures AddrOf(sb, v', s) == AddrOf(sb, v, s)
    {
    }
  }

  /** A zeroed free block made the indirect block of an inode that has none. */
  lemma {:induction false} TakeTable(sb: Super, v: Vol, i: nat, b: Word)
    requires Shaped(sb, v) && Owned(sb, v) && i < sb.ninodes && v.inode[i].addrs[NDIRECT] == 0
    requires sb.nmeta <= b < sb.size && b !in v.owner && v.disk[b] == Zeroed()
    ensures var v' := SetAddr(v, i, NDIRECT, b).(owner := v.owner[b as int := Table(i)]);
            Shaped(sb, v') && Owned(sb, v') && forall s :: SlotOk(sb, s) && s != Table(i) ==> AddrOf(sb, v', s) == AddrOf(sb, v, s)
  {
    var v' := SetAddr(v, i, NDIRECT, b).(owner := v.owner[b as int := Table(i)]);
    forall j | 0 <= j < sb.ninodes
      ensures ShapedInode(sb, v'.inode[j])
    {
      assert ShapedInode(sb, v.inode[j]);
    }
    forall s | SlotOk(sb, s) && s != Table(i)
      ensures AddrOf(sb, v', s) == AddrOf(sb, v, s)
    {
      if s.Entry? && s.ino == i {
        ZeroWord(s.k);
      }
    }
  }

  /** A free block put into an empty entry of an indirect block. */
  lemma {:induction false} TakeEntry(sb: Super, v: Vol, i: nat, k: nat, b: Word)
    requires Shaped(sb, v) && Owned(sb, v) && i < sb.ninodes && k < NINDIRECT
    requires v.inode[i].addrs[NDIRECT] != 0 && GetWord(v.disk[v.inode[i].addrs[NDIRECT]], k) == 0
    requires sb.nmeta <= b < sb.size && b !in v.owner
    ensures var t := v.inode[i].addrs[NDIRECT];
            var v' := v.(disk := v.disk[t := PutWord(v.disk[t], k, b)], owner := v.owner[b as int := Entry(i, k)]);
            Shaped(sb, v') && Owned(sb, v') && forall s :: SlotOk(sb, s) && s != Entry(i, k) ==> AddrOf(sb, v', s) == AddrOf(sb, v, s)
  {
    var t := v.inode[i].addrs[NDIRECT];
    var v' := v.(disk := v.disk[t := PutWord(v.disk[t], k, b)], owner := v.owner[b as int := Entry(i, k)]);
    assert AddrOf(sb, v, Table(i)) == t;
    GetPutWord(v.disk[t], k, b);
    assert AddrOf(sb, v', Entry(i, k)) == b;
    forall s | SlotOk(sb, s) && s != Entry(i, k)
      ensures AddrOf(sb, v', s) == AddrOf(sb, v, s)
    {
      if s.Entry? {
        assert AddrOf(sb, v, Table(s.ino)) == v.inode[s.ino].addrs[NDIRECT];
      }
    }
  }

  /** Writing a block that is not an indirect block moves no block number. */
  lemma {:induction false} WriteKeepsSlots(sb: Super, v: Vol, a: nat, data: Block)
    requires Shaped(sb, v) && Owned(sb, v) && a < |v.disk| && !(a in v.owner && v.owner[a].Table?)
    ensures var v' := v.(disk := v.disk[a := data]);
            Shaped(sb, v') && Owned(sb, v') && forall s :: SlotOk(sb, s) ==> AddrOf(sb, v', s) == AddrOf(sb, v, s)
  {
    var v' := v.(disk := v.disk[a := data]);
    forall s | SlotOk(sb, s)
      ensures AddrOf(sb, v', s) == AddrOf(sb, v, s)
    {
      if s.Entry? {
        assert AddrOf(sb, v, Table(s.ino)) == v.inode[s.ino].addrs[NDIRECT];
      }
    }
  }

  /** Emptying a direct slot. */
  lemma {:induction false} DropDirect(sb: Super, v: Vol, i: nat, k: nat)
    requires Shaped(sb, v) && Owned(sb, v) && i < sb.ninodes && k < NDIRECT
    ensures var v' := SetAddr(v, i, k, 0).(owner := v.owner - {v.inode[i].addrs[k] as int});
            Shaped(sb, v') && Owned(sb, v')
  {
    var v' := SetAddr(v, i, k, 0).(owner := v.owner - {v.inode[i].addrs[k] as int});
    forall j | 0 <= j < sb.ninodes
      ensures ShapedInode(sb, v'.inode[j])
    {
      assert ShapedInode(sb, v.inode[j]);
    }
    assert AddrOf(sb, v, Direct(i, k)) == v.inode[i].addrs[k];
    forall s | SlotOk(sb, s) && s != Direct(i, k)
      ensures AddrOf(sb, v', s) == AddrOf(sb, v, s)
    {
    }
  }

  /** The blocks reached through the indirect block of inode `i`, and that block itself. */
  ghost function Indirect(v: Vol, i: nat): (r: set<int>) {
    set a | a in v.owner && v.owner[a].ino == i && !v.owner[a].Direct?
  }

  /** Dropping the indirect block, and with it all its entries. */
  lemma {:induction false} DropTable(sb: Super, v: Vol, i: nat)
    requires Shaped(sb, v) && Owned(sb, v) && i < sb.ninodes
    ensures var v' := SetAddr(v, i, NDIRECT, 0).(owner := v.owner - Indirect(v, i));
            Shaped(sb, v') && Owned(sb, v')
  {
    var v' := SetAddr(v, i, NDIRECT, 0).(owner := v.owner - Indirect(v, i));
    forall j | 0 <= j < sb.ninodes
      ensures ShapedInode(sb, v'.inode[j])
    {
      assert ShapedInode(sb, v.inode[j]);
    }
    forall s | SlotOk(sb, s)
      ensures AddrOf(sb, v', s) == if s.ino == i && !s.Direct? then 0 else AddrOf(sb, v, s)
    {
    }
  }

  // ---------------------------------------------------------------- the bitmap under updates

  function MarkBit(sb: Super, d: Disk, b: nat): (r: Disk)
    requires ValidSuper(sb) && sb.size <= |d| && b < sb.size
    ensures |r| == |d|
  {
    d[BBlock(sb, b) := SetBit(d[BBlock(sb, b)], b % BPB)]
  }

  function UnmarkBit(sb: Super, d: Disk, b: nat): (r: Disk)
    requires ValidSuper(sb) && sb.size <= |d| && b < sb.size
    ensures |r| == |d|
  {
    d[BBlock(sb, b) := ClearBit(d[BBlock(sb, b)], b % BPB)]
  }

  /** Marking and unmarking a block affect no other block's bit. */
  lemma {:induction false} BitsApart(sb: Super, d: Disk, b: nat, c: nat)
    requires ValidSuper(sb) && sb.size <= |d| && b < sb.size && c < sb.size
    ensures InUse(sb, MarkBit(sb, d, b), c) <==> c == b || InUse(sb, d, c)
    ensures InUse(sb, UnmarkBit(sb, d, b), c) <==> c != b && InUse(sb, d, c)
  {
    hide GetBit, SetBit, ClearBit;
    BitChange(d[BBlock(sb, b)], b % BPB, c % BPB);
  }

  lemma {:induction false} MarkOne(sb: Super, d: Disk, used: set<int>, b: nat)
    requires ValidSuper(sb) && sb.size <= |d| && b < sb.size && Marked(sb, d, used)
    ensures Marked(sb, MarkBit(sb, d, b), used + {b})
  {
    hide InUse, MarkBit;
    forall c: nat | c < sb.size
      ensures InUse(sb, MarkBit(sb, d, b), c) <==> c < sb.nmeta || c in used + {b}
    {
      BitsApart(sb, d, b, c);
    }
  }

  lemma {:induction false} UnmarkOne(sb: Super, d: Disk, used: set<int>, b: nat)
    requires ValidSuper(sb) && sb.size <= |d| && sb.nmeta <= b < sb.size && Marked(sb, d, used)
    ensures Marked(sb, UnmarkBit(sb, d, b), used - {b})
  {
    hide InUse, UnmarkBit;
    forall c: nat | c < sb.size
      ensures InUse(sb, UnmarkBit(sb, d, b), c) <==> c < sb.nmeta || c in used - {b}
    {
      BitsApart(sb, d, b, c);
    }
  }

  lemma {:induction false} ValidSize(sb: Super)
    requires ValidSuper(sb)
    ensures 0 < sb.nmeta <= sb.size
  {
  }

  lemma {:induction false} BitmapIsMeta(sb: Super, c: nat)
    requires ValidSuper(sb) && c < sb.size
    ensures BBlock(sb, c) < sb.nmeta
  {
    assert c / 4096 <= (sb.size - 1) / 4096;
  }

  lemma {:induction false} WriteKeepsBit(sb: Super, d: Disk, a: nat, data: Block, c: nat)
    requires ValidSuper(sb) && sb.size <= |d| && sb.nmeta <= a < |d| && c < sb.size
    ensures InUse(sb, d[a := data], c) <==> InUse(sb, d, c)
  {
    assert c / 4096 <= (sb.size - 1) / 4096;
  }

  /** Writing a data block leaves the bitmap alone. */
  lemma {:induction false} WriteKeepsMarks(sb: Super, d: Disk, used: set<int>, a: nat, data: Block)
    requires ValidSuper(sb) && sb.size <= |d| && sb.nmeta <= a < |d| && Marked(sb, d, used)
    ensures Marked(sb, d[a := data], used)
  {
    hide InUse;
    var d' := d[a := data];
    forall c: nat | c < sb.size
      ensures InUse(sb, d', c) <==> c < sb.nmeta || c in used
    {
      WriteKeepsBit(sb, d, a, data, c);
    }
    assert Marked(sb, d', used);
  }

  // ---------------------------------------------------------------- file contents

  /** The slot for the `bn`th block of a file. */
  function FileSlot(i: nat, bn: nat): (s: Slot) {
    if bn < NDIRECT then Direct(i, bn) else Entry(i, bn - NDIRECT)
  }

  function BlockAddr(sb: Super, v: Vol, i: nat, bn: nat): (a: Word)
    requires Shaped(sb, v) && i < sb.ninodes && bn < MAXFILE
  {
    AddrOf(sb, v, FileSlot(i, bn))
  }

  lemma {:induction false} BlockAddrBound(sb: Super, v: Vol, i: nat, bn: nat)
    requires Shaped(sb, v) && Owned(sb, v) && i < sb.ninodes && bn < MAXFILE
    ensures BlockAddr(sb, v, i, bn) < sb.size
  {
    assert SlotOk(sb, FileSlot(i, bn));
  }

  /** Byte `p` of the file; what has no block reads as zero. */
  function ByteAt(sb: Super, v: Vol, i: nat, p: nat): (b: Byte)
    requires Shaped(sb, v) && i < sb.ninodes && p < MAXBYTES
  {
    var a := BlockAddr(sb, v, i, p / BSIZE);
    if 0 < a < |v.disk| then v.disk[a][p % BSIZE] else 0
  }

  predicate Mapped(sb: Super, v: Vol, i: nat, p: nat)
    requires Shaped(sb, v) && i < sb.ninodes && p < MAXBYTES
  {
    BlockAddr(sb, v, i, p / BSIZE) != 0
  }

  /** The byte sequence inode `i` stands for. */
  function Content(sb: Super, v: Vol, i: nat): (c: seq<Byte>)
    requires Shaped(sb, v) && i < sb.ninodes
    ensures |c| == v.inode[i].size
  {
    assert ShapedInode(sb, v.inode[i]);
    seq(v.inode[i].size, p requires 0 <= p < v.inode[i].size => ByteAt(sb, v, i, p))
  }

  /** Every byte of the file has a block. */
  ghost predicate NoHoles(sb: Super, v: Vol, i: nat)
    requires Shaped(sb, v) && i < sb.ninodes
  {
    forall p :: 0 <= p < v.inode[i].size && p < MAXBYTES ==> Mapped(sb, v, i, p)
  }

  // ---------------------------------------------------------------- how bmap changes a volume

  /** Volume `w` is `v` with blocks added to inode `i`: no slot in use changes, and no block
      changes except perhaps the inode's own indirect block. */
  ghost predicate Grown(sb: Super, v: Vol, w: Vol, i: nat) {
    && Sound(sb, v) && Sound(sb, w) && i < sb.ninodes && |w.disk| == |v.disk|
    && (forall j :: 0 <= j < sb.ninodes && j != i ==> w.inode[j] == v.inode[j])
    && w.inode[i] == v.inode[i].(addrs := w.inode[i].addrs)
    && (forall s :: SlotOk(sb, s) && (AddrOf(sb, v, s) != 0 || s.ino != i) ==> AddrOf(sb, w, s) == AddrOf(sb, v, s))
    && (forall a :: a in v.owner ==> a in w.owner && w.owner[a] == v.owner[a])
    && (forall a :: a in v.owner && v.owner[a] != Table(i) ==> w.disk[a] == v.disk[a])
  }

  lemma {:induction false} GrownSelf(sb: Super, v: Vol, i: nat)
    requires Sound(sb, v) && i < sb.ninodes
    ensures Grown(sb, v, v, i)
  {
    hide Marked, AddrOf;
  }

  lemma {:induction false} GrownTrans(sb: Super, v: Vol, w: Vol, x: Vol, i: nat)
    requires Grown(sb, v, w, i) && Grown(sb, w, x, i)
    ensures Grown(sb, v, x, i)
  {
    hide Sound, AddrOf;
    SoundShaped(sb, v);
    SoundShaped(sb, w);
    SoundShaped(sb, x);
  }

  lemma {:induction false} GrownFacts(sb: Super, v: Vol, w: Vol, i: nat)
    requires Grown(sb, v, w, i)
    ensures Sound(sb, v) && Sound(sb, w) && i < sb.ninodes && |w.disk| == |v.disk|
    ensures v.inode[i].addrs[NDIRECT] != 0 ==> w.inode[i].addrs[NDIRECT] == v.inode[i].addrs[NDIRECT]
  {
    assert AddrOf(sb, v, Table(i)) == v.inode[i].addrs[NDIRECT];
    assert AddrOf(sb, w, Table(i)) == w.inode[i].addrs[NDIRECT];
  }

  /** A block number balloc may return: free in the bitmap, so owned by nobody. */
  ghost predicate FreeBlock(sb: Super, v: Vol, b: nat) {
    Sound(sb, v) && b < sb.size && !InUse(sb, v.disk, b)
  }

  lemma {:induction false} FreeUnowned(sb: Super, v: Vol, b: nat)
    requires FreeBlock(sb, v, b)
    ensures sb.nmeta <= b && b !in v.owner
  {
    hide InUse;
  }

  /** The volume right after balloc has marked and zeroed block `b`. */
  function Allocated(sb: Super, v: Vol, b: nat): (w: Vol)
    requires ValidSuper(sb) && sb.size <= |v.disk| && b < sb.size
  {
    v.(disk := MarkBit(sb, v.disk, b)[b := Zeroed()])
  }

  lemma {:induction false} AllocatedOwned(sb: Super, v: Vol, b: nat)
    requires FreeBlock(sb, v, b)
    ensures var w := Allocated(sb, v, b);
            && Shaped(sb, w) && Owned(sb, w) && Marked(sb, w.disk, v.owner.Keys + {b})
            && w.disk[b] == Zeroed() && |w.disk| == |v.disk|
            && (forall s :: SlotOk(sb, s) ==> AddrOf(sb, w, s) == AddrOf(sb, v, s))
            && (forall a :: a in v.owner ==> w.disk[a] == v.disk[a])
  {
    hide InUse, Marked, AddrOf;
    FreeUnowned(sb, v, b);
    BitmapIsMeta(sb, b);
    var bb := BBlock(sb, b);
    assert bb !in v.owner;
    WriteKeepsSlots(sb, v, bb, SetBit(v.disk[bb], b % BPB));
    var u := v.(disk := MarkBit(sb, v.disk, b));
    WriteKeepsSlots(sb, u, b, Zeroed());
    MarkOne(sb, v.disk, v.owner.Keys, b);
    WriteKeepsMarks(sb, u.disk, v.owner.Keys + {b}, b, Zeroed());
  }

  /** Every slot but one is as it was. */
  ghost predicate OnlySlot(sb: Super, v: Vol, w: Vol, s: Slot) {
    Shaped(sb, v) && Shaped(sb, w) && forall x :: SlotOk(sb, x) && x != s ==> AddrOf(sb, w, x) == AddrOf(sb, v, x)
  }

  lemma {:induction false} GrowDirect(sb: Super, v: Vol, i: nat, k: nat, b: Word)
    requires FreeBlock(sb, v, b) && i < sb.ninodes && k < NDIRECT && v.inode[i].addrs[k] == 0
    ensures var w := SetAddr(Allocated(sb, v, b), i, k, b).(owner := v.owner[b as int := Direct(i, k)]);
            Grown(sb, v, w, i) && AddrOf(sb, w, Direct(i, k)) == b && b != 0
            && OnlySlot(sb, v, w, Direct(i, k)) && w.disk[b] == Zeroed() && b as int !in v.owner
  {
    hide InUse, Marked;
    FreeUnowned(sb, v, b);
    AllocatedOwned(sb, v, b);
    TakeDirect(sb, Allocated(sb, v, b), i, k, b);
    var w := SetAddr(Allocated(sb, v, b), i, k, b).(owner := v.owner[b as int := Direct(i, k)]);
    assert w.owner.Keys == v.owner.Keys + {b as int};
  }

  lemma {:induction false} GrowTable(sb: Super, v: Vol, i: nat, b: Word)
    requires FreeBlock(sb, v, b) && i < sb.ninodes && v.inode[i].addrs[NDIRECT] == 0
    ensures var w := SetAddr(Allocated(sb, v, b), i, NDIRECT, b).(owner := v.owner[b as int := Table(i)]);
            Grown(sb, v, w, i) && AddrOf(sb, w, Table(i)) == b && b != 0
            && OnlySlot(sb, v, w, Table(i)) && b as int !in v.owner
            && forall k: nat :: k < NINDIRECT ==> AddrOf(sb, w, Entry(i, k)) == 0
  {
    hide InUse, Marked;
    FreeUnowned(sb, v, b);
    AllocatedOwned(sb, v, b);
    TakeTable(sb, Allocated(sb, v, b), i, b);
    var w := SetAddr(Allocated(sb, v, b), i, NDIRECT, b).(owner := v.owner[b as int := Table(i)]);
    assert w.owner.Keys == v.owner.Keys + {b as int};
    forall k: nat | k < NINDIRECT
      ensures AddrOf(sb, w, Entry(i, k)) == 0
    {
      assert AddrOf(sb, v, Entry(i, k)) == 0;
    }
  }

  lemma {:induction false} GrowEntry(sb: Super, v: Vol, i: nat, k: nat, b: Word)
    requires FreeBlock(sb, v, b) && i < sb.ninodes && k < NINDIRECT
    requires v.inode[i].addrs[NDIRECT] != 0 && AddrOf(sb, v, Entry(i, k)) == 0
    ensures var t := v.inode[i].addrs[NDIRECT];
            var u := Allocated(sb, v, b);
            t < |v.disk| && u.disk[t] == v.disk[t] &&
            var w := u.(disk := u.disk[t := PutWord(u.disk[t], k, b)], owner := v.owner[b as int := Entry(i, k)]);
            Grown(sb, v, w, i) && AddrOf(sb, w, Entry(i, k)) == b && b != 0
            && OnlySlot(sb, v, w, Entry(i, k)) && w.disk[b] == Zeroed() && b as int !in v.owner
  {
    hide InUse, Marked;
    FreeUnowned(sb, v, b);
    AllocatedOwned(sb, v, b);
    var t := v.inode[i].addrs[NDIRECT];
    var u := Allocated(sb, v, b);
    assert AddrOf(sb, v, Table(i)) == t;
    assert u.disk[t] == v.disk[t];
    assert AddrOf(sb, u, Entry(i, k)) == 0;
    TakeEntry(sb, u, i, k, b);
    WriteKeepsMarks(sb, u.disk, v.owner.Keys + {b as int}, t, PutWord(u.disk[t], k, b));
    var w := u.(disk := u.disk[t := PutWord(u.disk[t], k, b)], owner := v.owner[b as int := Entry(i, k)]);
    assert w.owner.Keys == v.owner.Keys + {b as int};
    GetPutWord(v.disk[t], k, b);
  }

  /** The blocks bmap logs when it finds or adds block `bn` of inode `i`: nothing if the block was
      there; otherwise the block, its bitmap block, and for an indirect one the indirect block
      with, if that is new too, its bitmap block. */
  ghost function BmapLogs(sb: Super, v: Vol, w: Vol, i: nat, bn: nat): (s: set<int>)
    requires Shaped(sb, v) && Shaped(sb, w) && i < sb.ninodes && bn < MAXFILE
  {
    var a, t := BlockAddr(sb, w, i, bn), w.inode[i].addrs[NDIRECT];
    if BlockAddr(sb, v, i, bn) != 0 then {}
    else
      {a as int, BBlock(sb, a) as int}
      + (if bn < NDIRECT then {} else {t as int})
      + (if bn < NDIRECT || v.inode[i].addrs[NDIRECT] != 0 then {} else {BBlock(sb, t) as int})
  }

  /** A mapped byte survives growth, of this file or of another. */
  lemma {:induction false} GrownByte(sb: Super, v: Vol, w: Vol, i: nat, j: nat, p: nat)
    requires Grown(sb, v, w, i) && j < sb.ninodes && p < MAXBYTES && Mapped(sb, v, j, p)
    ensures Mapped(sb, w, j, p) && ByteAt(sb, w, j, p) == ByteAt(sb, v, j, p)
  {
    hide Marked;
    var s := FileSlot(j, p / BSIZE);
    assert SlotOk(sb, s);
    assert AddrOf(sb, v, s) in v.owner;
  }

  /** Two volumes that agree on the bytes of `i` agree on its contents. */
  lemma {:induction false} SameContent(sb: Super, v: Vol, w: Vol, i: nat)
    requires Shaped(sb, v) && Shaped(sb, w) && i < sb.ninodes && w.inode[i].size == v.inode[i].size <= MAXBYTES
    requires forall p :: 0 <= p < v.inode[i].size ==> ByteAt(sb, w, i, p) == ByteAt(sb, v, i, p)
    ensures Content(sb, w, i) == Content(sb, v, i)
  {
    hide ByteAt, Shaped;
  }

  // ---------------------------------------------------------------- a write in progress

  /** Replacing the bytes of `c` from `off` on by `src`, extending it if need be. */
  function Overwrite(c: seq<Byte>, off: nat, src: seq<Byte>): (r: seq<Byte>)
    requires off <= |c|
  {
    c[..off] + src + if off + |src| < |c| then c[off + |src|..] else []
  }

  /** Byte `p` of the file once the first `tot` bytes of `src` are in place. */
  function Want(sb: Super, v: Vol, i: nat, off: nat, src: seq<Byte>, tot: nat, p: nat): (b: Byte)
    requires Shaped(sb, v) && i < sb.ninodes && p < MAXBYTES && tot <= |src|
  {
    if off <= p < off + tot then src[p - off] else ByteAt(sb, v, i, p)
  }

  /** `v` is the volume before writei on inode `i`, `w` the one after `tot` bytes. */
  ghost predicate Writing(sb: Super, v: Vol, w: Vol, i: nat, off: nat, src: seq<Byte>, tot: nat) {
    && Sound(sb, v) && Sound(sb, w) && i < sb.ninodes && |w.disk| == |v.disk|
    && tot <= |src| && off <= v.inode[i].size && off + |src| <= MAXBYTES
    && (forall j :: 0 <= j < sb.ninodes && j != i ==> w.inode[j] == v.inode[j])
    && w.inode[i] == v.inode[i].(addrs := w.inode[i].addrs)
    && OthersKept(sb, v, w, i)
    && OwnBytes(sb, v, w, i, off, src, tot)
  }

  ghost predicate OthersKept(sb: Super, v: Vol, w: Vol, i: nat)
    requires Shaped(sb, v) && Shaped(sb, w)
  {
    forall j, p :: 0 <= j < sb.ninodes && j != i && 0 <= p < MAXBYTES && Mapped(sb, v, j, p) ==>
      Mapped(sb, w, j, p) && ByteAt(sb, w, j, p) == ByteAt(sb, v, j, p)
  }

  ghost predicate OwnBytes(sb: Super, v: Vol, w: Vol, i: nat, off: nat, src: seq<Byte>, tot: nat)
    requires Shaped(sb, v) && Shaped(sb, w) && i < sb.ninodes && tot <= |src|
  {
    forall p :: 0 <= p < MAXBYTES && (p < v.inode[i].size || p < off + tot) ==>
      Mapped(sb, w, i, p) && ByteAt(sb, w, i, p) == Want(sb, v, i, off, src, tot, p)
  }

  lemma {:induction false} WritingStart(sb: Super, v: Vol, i: nat, off: nat, src: seq<Byte>)
    requires Sound(sb, v) && i < sb.ninodes && NoHoles(sb, v, i) && off <= v.inode[i].size && off + |src| <= MAXBYTES
    ensures Writing(sb, v, v, i, off, src, 0)
  {
    hide Marked, Mapped, ByteAt;
    assert ShapedInode(sb, v.inode[i]);
  }

  /** bmap in the middle of a write changes nothing already written or still to be kept. */
  lemma {:induction false} WritingGrow(sb: Super, v: Vol, w: Vol, x: Vol, i: nat, off: nat, src: seq<Byte>, tot: nat)
    requires Writing(sb, v, w, i, off, src, tot) && Grown(sb, w, x, i)
    ensures Writing(sb, v, x, i, off, src, tot)
  {
    hide Sound, Mapped, ByteAt, Want;
    SoundShaped(sb, v);
    SoundShaped(sb, w);
    SoundShaped(sb, x);
    forall j, p | 0 <= j < sb.ninodes && j != i && 0 <= p < MAXBYTES && Mapped(sb, v, j, p)
      ensures Mapped(sb, x, j, p) && ByteAt(sb, x, j, p) == ByteAt(sb, v, j, p)
    {
      GrownByte(sb, w, x, i, j, p);
    }
    forall p | 0 <= p < MAXBYTES && (p < v.inode[i].size || p < off + tot)
      ensures Mapped(sb, x, i, p) && ByteAt(sb, x, i, p) == Want(sb, v, i, off, src, tot, p)
    {
      GrownByte(sb, w, x, i, i, p);
    }
  }

  lemma {:induction false} SoundShaped(sb: Super, v: Vol)
    requires Sound(sb, v)
    ensures Shaped(sb, v) && Owned(sb, v) && |v.inode| == sb.ninodes
  {
  }

  /** The block of byte `q` of inode `i` with `data` copied in at that byte. */
  function SpliceFile(sb: Super, w: Vol, i: nat, q: nat, data: seq<Byte>): (x: Vol)
    requires Shaped(sb, w) && i < sb.ninodes && q < MAXBYTES && q % BSIZE + |data| <= BSIZE
    requires BlockAddr(sb, w, i, q / BSIZE) < |w.disk|
  {
    var a := BlockAddr(sb, w, i, q / BSIZE);
    w.(disk := w.disk[a := Splice(w.disk[a], q % BSIZE, data)])
  }

  /** A data block is not an indirect block, so a splice keeps the volume sound. */
  lemma {:induction false} SpliceSound(sb: Super, w: Vol, i: nat, q: nat, data: seq<Byte>)
    requires Sound(sb, w) && i < sb.ninodes && q < MAXBYTES && q % BSIZE + |data| <= BSIZE && Mapped(sb, w, i, q)
    ensures BlockAddr(sb, w, i, q / BSIZE) < |w.disk|
    ensures Sound(sb, SpliceFile(sb, w, i, q, data))
    ensures forall s :: SlotOk(sb, s) ==> AddrOf(sb, SpliceFile(sb, w, i, q, data), s) == AddrOf(sb, w, s)
  {
    hide InUse, Marked, AddrOf;
    var s := FileSlot(i, q / BSIZE);
    assert SlotOk(sb, s);
    var a := AddrOf(sb, w, s);
    assert a in w.owner && w.owner[a] == s;
    WriteKeepsSlots(sb, w, a, Splice(w.disk[a], q % BSIZE, data));
    WriteKeepsMarks(sb, w.disk, w.owner.Keys, a, Splice(w.disk[a], q % BSIZE, data));
  }

  /** The only bytes a splice changes are the ones it is meant to. */
  lemma {:induction false} SpliceByte(sb: Super, w: Vol, i: nat, q: nat, data: seq<Byte>, j: nat, p: nat)
    requires Sound(sb, w) && i < sb.ninodes && q < MAXBYTES && q % BSIZE + |data| <= BSIZE && Mapped(sb, w, i, q)
    requires j < sb.ninodes && p < MAXBYTES && Mapped(sb, w, j, p)
    requires BlockAddr(sb, w, i, q / BSIZE) < |w.disk|
    ensures var x := SpliceFile(sb, w, i, q, data);
            Sound(sb, x) && Mapped(sb, x, j, p) &&
            ByteAt(sb, x, j, p) == if j == i && q <= p < q + |data| then data[p - q] else ByteAt(sb, w, j, p)
  {
    hide InUse, Marked, Sound, AddrOf;
    SpliceSound(sb, w, i, q, data);
    SoundShaped(sb, w);
    var x := SpliceFile(sb, w, i, q, data);
    SoundShaped(sb, x);
    var s, t := FileSlot(i, q / BSIZE), FileSlot(j, p / BSIZE);
    assert SlotOk(sb, s) && SlotOk(sb, t);
    var a, b := AddrOf(sb, w, s), AddrOf(sb, w, t);
    assert a in w.owner && w.owner[a] == s;
    assert b in w.owner && w.owner[b] == t;
    assert a == b <==> j == i && p / BSIZE == q / BSIZE;
  }

  /** One iteration of writei: `m` more bytes of `src` go into the block bmap found for them. */
  lemma {:induction false} WritingStep(sb: Super, v: Vol, w: Vol, i: nat, off: nat, src: seq<Byte>, tot: nat, m: nat)
    requires Writing(sb, v, w, i, off, src, tot) && 0 < m && tot + m <= |src|
    requires (off + tot) % BSIZE + m <= BSIZE && SoundMapped(sb, w, i, off + tot)
    ensures BlockAddr(sb, w, i, (off + tot) / BSIZE) < |w.disk|
    ensures Writing(sb, v, SpliceFile(sb, w, i, off + tot, src[tot..tot + m]), i, off, src, tot + m)
  {
    hide Sound, ByteAt, Mapped;
    var q := off + tot;
    var data := src[tot..tot + m];
    SoundShaped(sb, v);
    SoundShaped(sb, w);
    SpliceSound(sb, w, i, q, data);
    var x := SpliceFile(sb, w, i, q, data);
    SoundShaped(sb, x);
    forall j, p | 0 <= j < sb.ninodes && j != i && 0 <= p < MAXBYTES && Mapped(sb, v, j, p)
      ensures Mapped(sb, x, j, p) && ByteAt(sb, x, j, p) == ByteAt(sb, v, j, p)
    {
      SpliceByte(sb, w, i, q, data, j, p);
    }
    forall p | 0 <= p < MAXBYTES && (p < v.inode[i].size || p < q + m)
      ensures Mapped(sb, x, i, p) && ByteAt(sb, x, i, p) == Want(sb, v, i, off, src, tot + m, p)
    {
      if q <= p < q + m {
        SameBlock(sb, w, i, p, q);
      }
      SpliceByte(sb, w, i, q, data, i, p);
    }
  }

  /** Byte `p` of inode `i` has a block. */
  ghost predicate SoundMapped(sb: Super, w: Vol, i: nat, p: nat) {
    Sound(sb, w) && i < sb.ninodes && p < MAXBYTES && Mapped(sb, w, i, p)
  }

  lemma {:induction false} SameBlock(sb: Super, w: Vol, i: nat, p: nat, q: nat)
    requires Shaped(sb, w) && i < sb.ninodes && q <= p < MAXBYTES && p < q - q % BSIZE + BSIZE
    ensures Mapped(sb, w, i, p) <==> Mapped(sb, w, i, q)
  {
    assert p / 512 == q / 512;
  }

  function SetSize(v: Vol, i: nat, size: nat): (r: Vol)
    requires i < |v.inode|
  {
    v.(inode := v.inode[i := v.inode[i].(size := size)])
  }

  /** The size of an inode plays no part in who owns what. */
  lemma {:induction false} SizeSound(sb: Super, v: Vol, i: nat, size: nat)
    requires Sound(sb, v) && i < sb.ninodes && size <= MAXBYTES
    ensures var w := SetSize(v, i, size);
            Sound(sb, w) && forall s :: SlotOk(sb, s) ==> AddrOf(sb, w, s) == AddrOf(sb, v, s)
  {
    hide InUse, Marked;
    var w := SetSize(v, i, size);
    forall j | 0 <= j < sb.ninodes
      ensures ShapedInode(sb, w.inode[j])
    {
      assert ShapedInode(sb, v.inode[j]);
    }
    forall s | SlotOk(sb, s)
      ensures AddrOf(sb, w, s) == AddrOf(sb, v, s)
    {
    }
  }

  lemma {:induction false} SizeByte(sb: Super, v: Vol, i: nat, size: nat, j: nat, p: nat)
    requires Sound(sb, v) && i < sb.ninodes && size <= MAXBYTES && j < sb.ninodes && p < MAXBYTES
    ensures var w := SetSize(v, i, size);
            Shaped(sb, w) && (Mapped(sb, w, j, p) <==> Mapped(sb, v, j, p)) && ByteAt(sb, w, j, p) == ByteAt(sb, v, j, p)
  {
    hide InUse, Marked, AddrOf, Owned;
    SizeSound(sb, v, i, size);
    assert SlotOk(sb, FileSlot(j, p / BSIZE));
  }

  /** A finished write: the file's contents are the old ones with `src` put in at `off`, the file
      has no holes, and every other file without holes is as it was. */
  lemma {:induction false} WritingDone(sb: Super, v: Vol, w: Vol, i: nat, off: nat, src: seq<Byte>, size: nat)
    requires Writing(sb, v, w, i, off, src, |src|)
    requires size == if off + |src| > v.inode[i].size then off + |src| else v.inode[i].size
    ensures Shaped(sb, v) && Sound(sb, SetSize(w, i, size)) && NoHoles(sb, SetSize(w, i, size), i)
    ensures Content(sb, SetSize(w, i, size), i) == Overwrite(Content(sb, v, i), off, src)
    ensures forall j :: 0 <= j < sb.ninodes && j != i && NoHoles(sb, v, j) ==>
              NoHoles(sb, SetSize(w, i, size), j) && Content(sb, SetSize(w, i, size), j) == Content(sb, v, j)
  {
    hide Sound, ByteAt, Mapped;
    SoundShaped(sb, v);
    SoundShaped(sb, w);
    assert ShapedInode(sb, v.inode[i]);
    SizeSound(sb, w, i, size);
    var x := SetSize(w, i, size);
    SoundShaped(sb, x);
    var c, r := Content(sb, v, i), Overwrite(Content(sb, v, i), off, src);
    forall p | 0 <= p < size
      ensures Mapped(sb, x, i, p) && ByteAt(sb, x, i, p) == r[p]
    {
      SizeByte(sb, w, i, size, i, p);
      assert ByteAt(sb, w, i, p) == Want(sb, v, i, off, src, |src|, p);
    }
    assert Content(sb, x, i) == r;
    forall j | 0 <= j < sb.ninodes && j != i && NoHoles(sb, v, j)
      ensures NoHoles(sb, x, j) && Content(sb, x, j) == Content(sb, v, j)
    {
      OtherFile(sb, v, w, i, size, j);
    }
  }

  lemma {:induction false} OtherFile(sb: Super, v: Vol, w: Vol, i: nat, size: nat, j: nat)
    requires Sound(sb, v) && Sound(sb, w) && i < sb.ninodes && j < sb.ninodes && j != i && size <= MAXBYTES
    requires SoundNoHoles(sb, v, j) && w.inode[j] == v.inode[j] && SoundOthersKept(sb, v, w, i)
    ensures var x := SetSize(w, i, size);
            SoundNoHoles(sb, x, j) && Content(sb, x, j) == Content(sb, v, j)
  {
    hide Sound, ByteAt, Mapped, Content;
    SoundShaped(sb, v);
    SoundShaped(sb, w);
    assert ShapedInode(sb, v.inode[j]);
    SizeSound(sb, w, i, size);
    var x := SetSize(w, i, size);
    SoundShaped(sb, x);
    forall p | 0 <= p < v.inode[j].size
      ensures Mapped(sb, x, j, p) && ByteAt(sb, x, j, p) == ByteAt(sb, v, j, p)
    {
      SizeByte(sb, w, i, size, j, p);
    }
    SameContent(sb, v, x, j);
  }

  ghost predicate SoundNoHoles(sb: Super, v: Vol, i: nat) {
    Sound(sb, v) && i < sb.ninodes && NoHoles(sb, v, i)
  }

  ghost predicate SoundOthersKept(sb: Super, v: Vol, w: Vol, i: nat) {
    Sound(sb, v) && Sound(sb, w) && OthersKept(sb, v, w, i)
  }

  lemma {:induction false} ByteInBlock(sb: Super, v: Vol, i: nat, p: nat, j: nat)
    requires Sound(sb, v) && i < sb.ninodes && p + j < MAXBYTES && p % BSIZE + j < BSIZE && BlockAddr(sb, v, i, p / BSIZE) != 0
    ensures var a := BlockAddr(sb, v, i, p / BSIZE);
            a < |v.disk| && ByteAt(sb, v, i, p + j) == v.disk[a][p % BSIZE + j]
  {
    hide AddrOf, Owned, InUse, Marked;
    BlockAddrBound(sb, v, i, p / BSIZE);
    assert (p + j) / 512 == p / 512 && (p + j) % 512 == p % 512 + j;
  }

  /** A run of bytes within one block of a file, read from that block. */
  lemma {:induction false} ContentRun(sb: Super, v: Vol, i: nat, p: nat, m: nat)
    requires Sound(sb, v) && i < sb.ninodes && p + m <= v.inode[i].size && p < MAXBYTES && p % BSIZE + m <= BSIZE
    requires BlockAddr(sb, v, i, p / BSIZE) != 0
    ensures BlockAddr(sb, v, i, p / BSIZE) < |v.disk|
    ensures Content(sb, v, i)[p..p + m] == v.disk[BlockAddr(sb, v, i, p / BSIZE)][p % BSIZE..p % BSIZE + m]
  {
    hide Owned, ByteAt, BlockAddr, InUse, Marked;
    assert ShapedInode(sb, v.inode[i]);
    ByteInBlock(sb, v, i, p, 0);
    var run := Content(sb, v, i)[p..p + m];
    var blk := v.disk[BlockAddr(sb, v, i, p / BSIZE)][p % BSIZE..p % BSIZE + m];
    forall j | 0 <= j < |run|
      ensures run[j] == blk[j]
    {
      ByteInBlock(sb, v, i, p, j);
    }
  }

  // ---------------------------------------------------------------- what a write logs

  /** Blocks a write of `n` bytes at `off` touches. */
  function Touched(off: nat, n: nat): (k: nat) {
    if n == 0 then 0 else (off + n - 1) / BSIZE - off / BSIZE + 1
  }

  function TableSet(ip: Inode): (s: set<int>)
    requires |ip.addrs| == NDIRECT + 1
  {
    if ip.addrs[NDIRECT] == 0 then {} else {ip.addrs[NDIRECT] as int}
  }

  /** Every block that differs between the two disks has been logged. */
  ghost predicate Covers(d: Disk, e: Disk, logged: set<int>) {
    |e| == |d| && forall b :: 0 <= b < |d| && e[b] != d[b] ==> b in logged
  }

  lemma {:induction false} CoversTrans(d: Disk, e: Disk, f: Disk, l: set<int>, m: set<int>)
    requires Covers(d, e, l) && Covers(e, f, m) && l <= m
    ensures Covers(d, f, m)
  {
  }

  /** After `tot` bytes of a write at `off`, the blocks logged are `data` blocks, the indirect block
      (`t0` before the write, `t` now), and `marks` bitmap blocks for the blocks allocated. The first
      block of an unaligned write is never among those. */
  ghost predicate Budget(before: set<int>, logged: set<int>, t0: set<int>, t: set<int>, off: nat, tot: nat,
                         data: set<int>, marks: set<int>) {
    && t0 <= t
    && logged <= before + data + marks + t
    && |data| <= Touched(off, tot)
    && |marks| <= Touched(off, tot) - (if off % BSIZE != 0 && tot > 0 then 1 else 0) + |t| - |t0|
  }

  lemma {:induction false} TouchedStep(off: nat, tot: nat, m: nat)
    requires 0 < m && (off + tot) % BSIZE + m <= BSIZE && (tot == 0 || (off + tot) % BSIZE == 0)
    ensures Touched(off, tot + m) == Touched(off, tot) + 1
  {
    var q := off + tot;
    assert (q + m - 1) / 512 == q / 512;
    if tot > 0 {
      assert (q - 1) / 512 == q / 512 - 1;
    }
  }

  lemma {:induction false} AddOne(s: set<int>, x: int)
    ensures |s + {x}| <= |s| + 1
  {
  }

  lemma {:induction false} SubsetSize(s: set<int>, t: set<int>)
    requires s <= t
    ensures |s| <= |t|
  {
    assert t == s + (t - s);
  }

  /** One more block written, of those an inode already had. */
  lemma {:induction false} BudgetFound(before: set<int>, logged: set<int>, t0: set<int>, t: set<int>, t': set<int>,
                                       off: nat, tot: nat, m: nat, data: set<int>, marks: set<int>, a: int)
    requires Budget(before, logged, t0, t, off, tot, data, marks) && t <= t'
    requires Touched(off, tot + m) == Touched(off, tot) + 1
    ensures Budget(before, logged + {a}, t0, t', off, tot + m, data + {a}, marks)
  {
    AddOne(data, a);
    SubsetSize(t, t');
  }

  /** One more block written, newly allocated; `extra` marks the indirect block if that is new. */
  lemma {:induction false} BudgetAdded(before: set<int>, logged: set<int>, t0: set<int>, t: set<int>, t': set<int>,
                                       off: nat, tot: nat, m: nat, data: set<int>, marks: set<int>, a: int, mark: int, extra: set<int>)
    requires Budget(before, logged, t0, t, off, tot, data, marks) && t <= t'
    requires Touched(off, tot + m) == Touched(off, tot) + 1 && (off % BSIZE == 0 || tot > 0)
    requires |extra| <= |t'| - |t|
    ensures Budget(before, logged + {a, mark} + t' + extra, t0, t', off, tot + m, data + {a}, marks + {mark} + extra)
  {
    AddOne(data, a);
    AddOne(marks, mark);
    assert |marks + {mark} + extra| <= |marks + {mark}| + |extra|;
  }

  lemma {:induction false} BudgetLess(before: set<int>, logged: set<int>, logged': set<int>, t0: set<int>, t: set<int>,
                                      off: nat, tot: nat, data: set<int>, marks: set<int>)
    requires Budget(before, logged, t0, t, off, tot, data, marks) && logged' <= logged
    ensures Budget(before, logged', t0, t, off, tot, data, marks)
  {
  }

  lemma {:induction false} BmapLogsFound(sb: Super, w: Vol, x: Vol, i: nat, bn: nat)
    requires Grown(sb, w, x, i) && bn < MAXFILE && SoundAddr(sb, w, i, bn) != 0
    ensures Shaped(sb, w) && Shaped(sb, x) && BmapLogs(sb, w, x, i, bn) == {}
  {
    hide Owned, Marked;
  }

  /** The address of a file block, for a sound volume. */
  ghost function SoundAddr(sb: Super, v: Vol, i: nat, bn: nat): (a: int) {
    if Sound(sb, v) && i < sb.ninodes && bn < MAXFILE then BlockAddr(sb, v, i, bn) else 0
  }

  ghost function ExtraMark(sb: Super, w: Vol, x: Vol, i: nat, bn: nat): (s: set<int>)
    requires i < |w.inode| && |w.inode[i].addrs| == NDIRECT + 1 && i < |x.inode| && |x.inode[i].addrs| == NDIRECT + 1
  {
    if bn >= NDIRECT && w.inode[i].addrs[NDIRECT] == 0 then {BBlock(sb, x.inode[i].addrs[NDIRECT]) as int} else {}
  }

  lemma {:induction false} BmapLogsAdded(sb: Super, w: Vol, x: Vol, i: nat, bn: nat)
    requires Grown(sb, w, x, i) && bn < MAXFILE && SoundAddr(sb, w, i, bn) == 0 && SoundAddr(sb, x, i, bn) != 0
    ensures Shaped(sb, w) && Shaped(sb, x) && ShapedInode(sb, w.inode[i]) && ShapedInode(sb, x.inode[i])
    ensures var a := SoundAddr(sb, x, i, bn);
            a >= 0 && BmapLogs(sb, w, x, i, bn) <= {a, BBlock(sb, a) as int} + TableSet(x.inode[i]) + ExtraMark(sb, w, x, i, bn)
    ensures |ExtraMark(sb, w, x, i, bn)| <= |TableSet(x.inode[i])| - |TableSet(w.inode[i])|
  {
    hide Owned, Marked, BBlock;
    GrownFacts(sb, w, x, i);
    SoundShaped(sb, w);
    SoundShaped(sb, x);
    assert ShapedInode(sb, w.inode[i]) && ShapedInode(sb, x.inode[i]);
  }

  lemma {:induction false} TableGrows(sb: Super, w: Vol, x: Vol, i: nat)
    requires Grown(sb, w, x, i)
    ensures i < sb.ninodes && Shaped(sb, w) && Shaped(sb, x) && ShapedInode(sb, w.inode[i]) && ShapedInode(sb, x.inode[i])
    ensures TableSet(w.inode[i]) <= TableSet(x.inode[i])
  {
    GrownFacts(sb, w, x, i);
  }

  /** One more block written keeps to the budget. */
  lemma {:induction false} BudgetStep(sb: Super, before: set<int>, logged: set<int>, t0: set<int>, w: Vol, x: Vol, i: nat,
                                      off: nat, tot: nat, m: nat, data: set<int>, marks: set<int>)
      returns (data': set<int>, marks': set<int>)
    requires Grown(sb, w, x, i) && Budget(before, logged, t0, TableSet(w.inode[i]), off, tot, data, marks)
    requires off + tot < MAXBYTES && 0 < m && (off + tot) % BSIZE + m <= BSIZE && (tot == 0 || (off + tot) % BSIZE == 0)
    requires off % BSIZE != 0 && tot == 0 ==> SoundAddr(sb, w, i, off / BSIZE) != 0
    requires SoundAddr(sb, x, i, (off + tot) / BSIZE) != 0
    ensures Budget(before, logged + BmapLogs(sb, w, x, i, (off + tot) / BSIZE) + {SoundAddr(sb, x, i, (off + tot) / BSIZE)},
                   t0, TableSet(x.inode[i]), off, tot + m, data', marks')
  {
    hide Touched, BBlock, Budget, Grown, SoundAddr, BmapLogs, ExtraMark, TableSet;
    TableGrows(sb, w, x, i);
    TouchedStep(off, tot, m);
    var bn := (off + tot) / BSIZE;
    var a := SoundAddr(sb, x, i, bn);
    var t, t' := TableSet(w.inode[i]), TableSet(x.inode[i]);
    data' := data + {a};
    if SoundAddr(sb, w, i, bn) != 0 {
      BmapLogsFound(sb, w, x, i, bn);
      marks' := marks;
      BudgetFound(before, logged, t0, t, t', off, tot, m, data, marks, a);
      assert logged + {} + {a} == logged + {a};
    } else {
      BmapLogsAdded(sb, w, x, i, bn);
      var extra := ExtraMark(sb, w, x, i, bn);
      marks' := marks + {BBlock(sb, a) as int} + extra;
      BudgetAdded(before, logged, t0, t, t', off, tot, m, data, marks, a, BBlock(sb, a), extra);
      BudgetLess(before, logged + {a, BBlock(sb, a) as int} + t' + extra,
                 logged + BmapLogs(sb, w, x, i, bn) + {a}, t0, t', off, tot + m, data', marks');
    }
  }

  /** No block is free. */
  ghost predicate Full(sb: Super, d: Disk) {
    ValidSuper(sb) && sb.size <= |d| && forall b: nat :: b < sb.size ==> InUse(sb, d, b)
  }

  /** While a write is going on, the bytes the file had before it are mapped. */
  lemma {:induction false} WritingMapped(sb: Super, v: Vol, w: Vol, i: nat, off: nat, src: seq<Byte>, tot: nat, p: nat)
    requires Writing(sb, v, w, i, off, src, tot) && p < v.inode[i].size
    ensures SoundMapped(sb, w, i, p)
  {
    hide Sound, Mapped, ByteAt;
    SoundShaped(sb, v);
    SoundShaped(sb, w);
    assert ShapedInode(sb, v.inode[i]);
  }

  lemma {:induction false} WritingFacts(sb: Super, v: Vol, w: Vol, i: nat, off: nat, src: seq<Byte>, tot: nat)
    requires Writing(sb, v, w, i, off, src, tot)
    ensures Sound(sb, v) && Sound(sb, w) && i < sb.ninodes && |v.inode| == |w.inode| == sb.ninodes
    ensures |v.inode[i].addrs| == |w.inode[i].addrs| == NDIRECT + 1 && off + |src| <= MAXBYTES
    ensures forall j :: 0 <= j < sb.ninodes && j != i ==> w.inode[j] == v.inode[j]
    ensures w.inode[i] == v.inode[i].(addrs := w.inode[i].addrs)
  {
    assert ShapedInode(sb, v.inode[i]) && ShapedInode(sb, w.inode[i]);
  }

  /** An unaligned write starts in a block the file already has. */
  lemma {:induction false} FirstMapped(sb: Super, v: Vol, w: Vol, i: nat, off: nat, src: seq<Byte>)
    requires Writing(sb, v, w, i, off, src, 0) && off % BSIZE != 0
    ensures SoundAddr(sb, w, i, off / BSIZE) != 0
  {
    hide Owned, Marked, AddrOf, OthersKept, OwnBytes;
    WritingMapped(sb, v, w, i, off, src, 0, off - 1);
    assert (off - 1) / 512 == off / 512;
  }

  lemma {:induction false} MappedAddr(sb: Super, w: Vol, i: nat, q: nat)
    requires SoundMapped(sb, w, i, q)
    ensures SoundAddr(sb, w, i, q / BSIZE) != 0 && SoundAddr(sb, w, i, q / BSIZE) == BlockAddr(sb, w, i, q / BSIZE)
  {
  }

  lemma {:induction false} SpliceInodes(sb: Super, w: Vol, i: nat, q: nat, data: seq<Byte>)
    requires Shaped(sb, w) && i < sb.ninodes && q < MAXBYTES && q % BSIZE + |data| <= BSIZE
    requires BlockAddr(sb, w, i, q / BSIZE) < |w.disk|
    ensures SpliceFile(sb, w, i, q, data).inode == w.inode
  {
  }

  lemma {:induction false} BudgetStart(logged: set<int>, t: set<int>, off: nat)
    ensures Budget(logged, logged, t, t, off, 0, {}, {})
  {
  }

  /** The state of writei's loop after `tot` bytes: the contents so far, the blocks logged on top of
      `base` so far, and the inode still unchanged unless the file has grown. */
  ghost predicate Progress(sb: Super, v: Vol, w: Vol, i: nat, off: nat, src: seq<Byte>, tot: nat,
                           base: set<int>, logged: set<int>, data: set<int>, marks: set<int>) {
    && Writing(sb, v, w, i, off, src, tot)
    && (tot == 0 || (off + tot) % BSIZE == 0 || tot == |src|)
    && (off + tot <= v.inode[i].size ==> w.inode == v.inode)
    && ShapedInode(sb, v.inode[i]) && ShapedInode(sb, w.inode[i])
    && Budget(base, logged, TableSet(v.inode[i]), TableSet(w.inode[i]), off, tot, data, marks)
  }

  lemma {:induction false} ProgressStart(sb: Super, v: Vol, i: nat, off: nat, src: seq<Byte>, logged: set<int>)
    requires SoundNoHoles(sb, v, i) && off <= v.inode[i].size && off + |src| <= MAXBYTES
    ensures Progress(sb, v, v, i, off, src, 0, logged, logged, {}, {})
  {
    hide Writing, Budget;
    WritingStart(sb, v, i, off, src);
    assert ShapedInode(sb, v.inode[i]);
    BudgetStart(logged, TableSet(v.inode[i]), off);
  }

  lemma {:induction false} ProgressStep(sb: Super, v: Vol, w0: Vol, w: Vol, i: nat, off: nat, src: seq<Byte>, tot: nat, m: nat,
                                        base: set<int>, logged: set<int>, data: set<int>, marks: set<int>)
      returns (data': set<int>, marks': set<int>)
    requires Progress(sb, v, w0, i, off, src, tot, base, logged, data, marks) && tot < |src|
    requires Grown(sb, w0, w, i) && SoundMapped(sb, w, i, off + tot)
    requires SoundMapped(sb, w0, i, off + tot) ==> w == w0
    requires 0 < m <= |src| - tot && (off + tot) % BSIZE + m <= BSIZE && (tot + m == |src| || (off + tot) % BSIZE + m == BSIZE)
    ensures BlockAddr(sb, w, i, (off + tot) / BSIZE) < |w.disk|
    ensures Progress(sb, v, SpliceFile(sb, w, i, off + tot, src[tot..tot + m]), i, off, src, tot + m, base,
                     logged + BmapLogs(sb, w0, w, i, (off + tot) / BSIZE) + {SoundAddr(sb, w, i, (off + tot) / BSIZE)}, data', marks')
  {
    hide Sound, Writing, Budget, Grown, BmapLogs, SpliceFile, SoundMapped, SoundAddr, TableSet;
    WritingFacts(sb, v, w0, i, off, src, tot);
    if off + tot < v.inode[i].size {
      WritingMapped(sb, v, w0, i, off, src, tot, off + tot);
    }
    if tot == 0 && off % BSIZE != 0 {
      FirstMapped(sb, v, w0, i, off, src);
    }
    WritingGrow(sb, v, w0, w, i, off, src, tot);
    WritingFacts(sb, v, w, i, off, src, tot);
    WritingStep(sb, v, w, i, off, src, tot, m);
    MappedAddr(sb, w, i, off + tot);
    data', marks' := BudgetStep(sb, base, logged, TableSet(v.inode[i]), w0, w, i, off, tot, m, data, marks);
    SoundShaped(sb, w);
    SpliceInodes(sb, w, i, off + tot, src[tot..tot + m]);
    assert ShapedInode(sb, w.inode[i]);
    if (off + tot) % BSIZE + m == BSIZE {
      BlockEnd(off + tot, m);
    }
  }

  lemma {:induction false} ProgressSound(sb: Super, v: Vol, w: Vol, i: nat, off: nat, src: seq<Byte>, tot: nat,
                                         base: set<int>, logged: set<int>, data: set<int>, marks: set<int>)
    requires Progress(sb, v, w, i, off, src, tot, base, logged, data, marks)
    ensures Sound(sb, v) && Sound(sb, w) && i < sb.ninodes && off + |src| <= MAXBYTES && off <= v.inode[i].size
    ensures |v.inode| == |w.inode| == sb.ninodes && ShapedInode(sb, v.inode[i]) && ShapedInode(sb, w.inode[i])
  {
  }

  lemma {:induction false} BlockEnd(q: nat, m: nat)
    requires q % BSIZE + m == BSIZE
    ensures (q + m) % BSIZE == 0
  {
    assert q == 512 * (q / 512) + q % 512;
  }

  /** What a completed writei guarantees of the volume it leaves. */
  ghost predicate WroteFile(sb: Super, v: Vol, w: Vol, i: nat, off: nat, src: seq<Byte>) {
    && Sound(sb, v) && i < sb.ninodes && off <= v.inode[i].size
    && SoundNoHoles(sb, w, i)
    && Content(sb, w, i) == Overwrite(Content(sb, v, i), off, src)
    && w.inode[i] == v.inode[i].(addrs := w.inode[i].addrs, size := w.inode[i].size)
    && (forall j :: 0 <= j < sb.ninodes && j != i ==> w.inode[j] == v.inode[j])
    && forall j :: 0 <= j < sb.ninodes && j != i && NoHoles(sb, v, j) ==>
         SoundNoHoles(sb, w, j) && Content(sb, w, j) == Content(sb, v, j)
  }

  lemma {:induction false} ProgressDone(sb: Super, v: Vol, w: Vol, i: nat, off: nat, src: seq<Byte>, size: nat,
                                        base: set<int>, logged: set<int>, data: set<int>, marks: set<int>)
    requires Progress(sb, v, w, i, off, src, |src|, base, logged, data, marks)
    requires size == if off + |src| > v.inode[i].size then off + |src| else v.inode[i].size
    ensures i < |w.inode| && WroteFile(sb, v, SetSize(w, i, size), i, off, src)
  {
    hide Sound, Content, NoHoles, Overwrite, Budget, TableSet;
    WritingFacts(sb, v, w, i, off, src, |src|);
    ProgressSound(sb, v, w, i, off, src, |src|, base, logged, data, marks);
    hide Writing;
    WritingDone(sb, v, w, i, off, src, size);
  }

  /** Logging the inode block, or not, on top of a write. */
  lemma {:induction false} BudgetInode(before: set<int>, logged: set<int>, logged': set<int>, t0: set<int>, t: set<int>,
                                       off: nat, tot: nat, data: set<int>, marks: set<int>, x: int)
    requires Budget(before, logged, t0, t, off, tot, data, marks) && logged' <= logged + {x}
    ensures Budget(before + {x}, logged', t0, t, off, tot, data, marks)
  {
  }

  lemma {:induction false} ProgressInode(sb: Super, v: Vol, w: Vol, i: nat, off: nat, src: seq<Byte>,
                                         base: set<int>, logged: set<int>, data: set<int>, marks: set<int>)
    requires Progress(sb, v, w, i, off, src, |src|, base, logged, data, marks)
    ensures w.inode[i] == v.inode[i].(addrs := w.inode[i].addrs)
    ensures off + |src| <= v.inode[i].size ==> w.inode == v.inode
    ensures |src| == 0 ==> w.inode == v.inode
    ensures Budget(base, logged, TableSet(v.inode[i]), TableSet(w.inode[i]), off, |src|, data, marks)
  {
    hide Sound, Budget, TableSet, OthersKept, OwnBytes;
  }

  lemma {:induction false} WroteSound(sb: Super, v: Vol, w: Vol, i: nat, off: nat, src: seq<Byte>)
    requires WroteFile(sb, v, w, i, off, src)
    ensures Sound(sb, w) && |w.inode| == sb.ninodes && ShapedInode(sb, w.inode[i])
  {
    assert ShapedInode(sb, w.inode[i]);
  }

  // ---------------------------------------------------------------- freeing

  /** The volume while blocks in `limbo` have left their slots but are still marked in use. */
  ghost predicate Limbo(sb: Super, v: Vol, limbo: set<int>) {
    && Shaped(sb, v) && Owned(sb, v)
    && Marked(sb, v.disk, v.owner.Keys + limbo)
    && limbo !! v.owner.Keys && forall a :: a in limbo ==> sb.nmeta <= a < sb.size
  }

  lemma {:induction false} LimboDone(sb: Super, v: Vol)
    requires Limbo(sb, v, {})
    ensures Sound(sb, v)
  {
    assert v.owner.Keys + {} == v.owner.Keys;
  }

  /** A direct slot emptied: its block is in limbo. */
  lemma {:induction false} LimboDirect(sb: Super, v: Vol, i: nat, k: nat)
    requires Sound(sb, v) && i < sb.ninodes && k < NDIRECT && v.inode[i].addrs[k] != 0
    ensures var a := v.inode[i].addrs[k] as int;
            Limbo(sb, SetAddr(v, i, k, 0).(owner := v.owner - {a}), {a}) && a in v.owner && v.owner[a] == Direct(i, k)
  {
    hide Marked, InUse;
    var a := v.inode[i].addrs[k] as int;
    assert AddrOf(sb, v, Direct(i, k)) == a;
    DropDirect(sb, v, i, k);
    assert (v.owner - {a}).Keys + {a} == v.owner.Keys;
  }

  /** An indirect block dropped: it and all its entries are in limbo. */
  lemma {:induction false} LimboTable(sb: Super, v: Vol, i: nat)
    requires Sound(sb, v) && i < sb.ninodes
    ensures Limbo(sb, SetAddr(v, i, NDIRECT, 0).(owner := v.owner - Indirect(v, i)), Indirect(v, i))
  {
    hide Marked, InUse;
    DropTable(sb, v, i);
    assert (v.owner - Indirect(v, i)).Keys + Indirect(v, i) == v.owner.Keys;
  }

  /** Freeing a block in limbo cannot hit the "freeing free block" panic, and touches only the bitmap. */
  lemma {:induction false} LimboFree(sb: Super, v: Vol, limbo: set<int>, a: nat)
    requires Limbo(sb, v, limbo) && a in limbo
    ensures a < sb.size && InUse(sb, v.disk, a)
    ensures var w := v.(disk := UnmarkBit(sb, v.disk, a));
            && Limbo(sb, w, limbo - {a as int}) && |w.disk| == |v.disk|
            && forall b :: sb.nmeta <= b < |v.disk| ==> w.disk[b] == v.disk[b]
  {
    hide InUse, AddrOf;
    BitmapIsMeta(sb, a);
    var bb := BBlock(sb, a);
    assert bb !in v.owner;
    WriteKeepsSlots(sb, v, bb, ClearBit(v.disk[bb], a % BPB));
    UnmarkOne(sb, v.disk, v.owner.Keys + limbo, a);
    assert (v.owner.Keys + limbo) - {a as int} == v.owner.Keys + (limbo - {a as int});
  }

  /** Nothing but inode `i` and its blocks differs between `v` and `w`, as far as files go. */
  ghost predicate KeptOthers(v: Vol, w: Vol, i: nat) {
    && |w.inode| == |v.inode| && |w.disk| == |v.disk|
    && (forall j :: 0 <= j < |v.inode| && j != i ==> w.inode[j] == v.inode[j])
    && (forall a :: a in v.owner && v.owner[a].ino != i ==> a in w.owner && w.owner[a] == v.owner[a])
    && (forall a :: a in v.owner && v.owner[a].ino != i && 0 <= a < |v.disk| ==> w.disk[a] == v.disk[a])
  }

  lemma {:induction false} KeptByte(sb: Super, v: Vol, w: Vol, i: nat, j: nat, p: nat)
    requires Sound(sb, v) && Sound(sb, w) && KeptOthers(v, w, i) && j < sb.ninodes && j != i && p < MAXBYTES && Mapped(sb, v, j, p)
    ensures Mapped(sb, w, j, p) && ByteAt(sb, w, j, p) == ByteAt(sb, v, j, p)
  {
    hide Marked;
    var s := FileSlot(j, p / BSIZE);
    assert SlotOk(sb, s) && SlotOk(sb, Table(j));
    assert AddrOf(sb, v, Table(j)) == v.inode[j].addrs[NDIRECT];
    assert AddrOf(sb, v, s) in v.owner;
    assert AddrOf(sb, w, s) == AddrOf(sb, v, s);
  }

  /** A file without holes is untouched by work on another inode's blocks. */
  lemma {:induction false} KeptFile(sb: Super, v: Vol, w: Vol, i: nat, j: nat)
    requires Sound(sb, v) && Sound(sb, w) && KeptOthers(v, w, i) && j < sb.ninodes && j != i && SoundNoHoles(sb, v, j)
    ensures SoundNoHoles(sb, w, j) && Content(sb, w, j) == Content(sb, v, j)
  {
    hide Sound, ByteAt, Mapped, Content;
    SoundShaped(sb, v);
    SoundShaped(sb, w);
    assert ShapedInode(sb, v.inode[j]);
    forall p | 0 <= p < v.inode[j].size
      ensures Mapped(sb, w, j, p) && ByteAt(sb, w, j, p) == ByteAt(sb, v, j, p)
    {
      KeptByte(sb, v, w, i, j, p);
    }
    SameContent(sb, v, w, j);
  }

  /** The blocks named by the first `j` entries of an indirect block. */
  function Listed(t: Block, j: nat): (s: set<int>)
    requires j <= NINDIRECT
  {
    if j == 0 then {}
    else Listed(t, j - 1) + (if GetWord(t, j - 1) == 0 then {} else {GetWord(t, j - 1) as int})
  }

  lemma {:induction false} ListedAre(t: Block, j: nat)
    requires j <= NINDIRECT
    ensures forall a :: a in Listed(t, j) <==> a != 0 && exists k: nat :: k < j && GetWord(t, k) == a
  {
    hide GetWord;
    if j > 0 {
      ListedAre(t, j - 1);
    }
  }

  /** Each non-zero entry of the indirect block is a block of its own. */
  lemma {:induction false} EntryOwned(sb: Super, v: Vol, i: nat, j: nat)
    requires Sound(sb, v) && i < sb.ninodes && j < NINDIRECT && v.inode[i].addrs[NDIRECT] != 0
    ensures var t := v.disk[v.inode[i].addrs[NDIRECT]];
            GetWord(t, j) != 0 ==> GetWord(t, j) as int in Indirect(v, i) - Listed(t, j)
  {
    hide Marked, Listed;
    var t := v.disk[v.inode[i].addrs[NDIRECT]];
    ListedAre(t, j);
    forall k: nat | k <= j
      ensures GetWord(t, k) != 0 ==> GetWord(t, k) as int in v.owner && v.owner[GetWord(t, k) as int] == Entry(i, k)
    {
      assert AddrOf(sb, v, Entry(i, k)) == GetWord(t, k);
    }
  }

  /** Apart from its entries, the indirect part of an inode is just the indirect block. */
  lemma {:induction false} OnlyTableLeft(sb: Super, v: Vol, i: nat)
    requires Sound(sb, v) && i < sb.ninodes && v.inode[i].addrs[NDIRECT] != 0
    ensures var a := v.inode[i].addrs[NDIRECT];
            Indirect(v, i) - Listed(v.disk[a], NINDIRECT) == {a as int}
  {
    hide Marked, Listed;
    var a := v.inode[i].addrs[NDIRECT];
    var t := v.disk[a];
    ListedAre(t, NINDIRECT);
    assert AddrOf(sb, v, Table(i)) == a;
    forall b | b in Indirect(v, i) && b != a
      ensures b in Listed(t, NINDIRECT)
    {
      assert AddrOf(sb, v, v.owner[b]) == b;
    }
    forall k: nat | k < NINDIRECT
      ensures GetWord(t, k) != a
    {
      assert AddrOf(sb, v, Entry(i, k)) == GetWord(t, k);
    }
  }

  lemma {:induction false} EmptyOwnsNothing(sb: Super, v: Vol, i: nat)
    requires Sound(sb, v) && i < sb.ninodes && forall k :: 0 <= k <= NDIRECT ==> v.inode[i].addrs[k] == 0
    ensures forall a :: a in v.owner ==> v.owner[a].ino != i
  {
    hide Marked;
    forall a | a in v.owner
      ensures v.owner[a].ino != i
    {
      assert AddrOf(sb, v, v.owner[a]) == a;
    }
  }

  /** Volume `w` is `v` with blocks taken from inode `i` only. */
  ghost predicate Shrunk(sb: Super, v: Vol, w: Vol, i: nat) {
    && Sound(sb, v) && Sound(sb, w) && KeptOthers(v, w, i)
    && forall a :: a in w.owner ==> a in v.owner && w.owner[a] == v.owner[a]
  }

  lemma {:induction false} ShrunkTrans(sb: Super, v: Vol, w: Vol, x: Vol, i: nat)
    requires Shrunk(sb, v, w, i) && Shrunk(sb, w, x, i)
    ensures Shrunk(sb, v, x, i)
  {
    hide Sound;
  }

  lemma {:induction false} ShrunkSize(sb: Super, v: Vol, i: nat)
    requires Sound(sb, v) && i < sb.ninodes
    ensures i < |v.inode| && Shrunk(sb, v, SetSize(v, i, 0), i)
  {
    hide Sound;
    SoundShaped(sb, v);
    SizeSound(sb, v, i, 0);
  }

  /** An inode emptied of its blocks: they, and no others, have lost their owner. */
  lemma {:induction false} ShrunkToNothing(sb: Super, v: Vol, w: Vol, i: nat)
    requires Shrunk(sb, v, w, i) && i < sb.ninodes && |w.inode[i].addrs| == NDIRECT + 1
    requires forall k :: 0 <= k <= NDIRECT ==> w.inode[i].addrs[k] == 0
    ensures forall a :: a in w.owner <==> a in v.owner && v.owner[a].ino != i
    ensures forall j :: 0 <= j < sb.ninodes && j != i && SoundNoHoles(sb, v, j) ==>
              SoundNoHoles(sb, w, j) && Content(sb, w, j) == Content(sb, v, j)
  {
    hide Sound, SoundNoHoles, Content;
    SoundShaped(sb, v);
    SoundShaped(sb, w);
    EmptyOwnsNothing(sb, w, i);
    forall j | 0 <= j < sb.ninodes && j != i && SoundNoHoles(sb, v, j)
      ensures SoundNoHoles(sb, w, j) && Content(sb, w, j) == Content(sb, v, j)
    {
      KeptFile(sb, v, w, i, j);
    }
  }
}
