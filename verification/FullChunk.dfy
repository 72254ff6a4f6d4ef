/** A volume on which one chunk of filewrite() uses up its whole reservation in the log: the chunk starts
    inside the last direct block and ends in the third block reached through an indirect block, and each of
    the four blocks it allocates has its bit in another bitmap block. */
module FullChunk {
  import opened Blocks
  import opened Volume
  import opened Space
  import opened FileSystem
  import opened FileWrite

  const SB := Super(12289, 4077, 684, 2, 100)
  const OFF := 11 * BSIZE + 1

  // ---------------------------------------------------------------- the volume

  /** All data blocks but the last of each of three bitmap blocks and the only one of the fourth. */
  predicate Used(a: int) {
    4077 <= a < 12287 && a != 4095 && a != 8191
  }

  const FREE: set<int> := {4095, 8191, 12287, 12288}

  /** The block that has the `y`th direct slot. */
  function BlockOf(y: nat): (a: Word)
    requires y < 8208
    ensures Used(a)
  {
    if y < 18 then 4077 + y else if y < 4113 then 4078 + y else 4079 + y
  }

  function IndexOf(a: int): (y: nat)
    requires Used(a)
    ensures y < 8208 && BlockOf(y) == a
  {
    if a < 4095 then a - 4077 else if a < 8191 then a - 4078 else a - 4079
  }

  lemma {:induction false} IndexBlock(y: nat)
    requires y < 8208
    ensures IndexOf(BlockOf(y)) == y
  {
  }

  function SlotFor(y: nat): (s: Slot) {
    Direct(y / 12, y % 12)
  }

  function AddrAt(j: nat, k: nat): (a: Word)
    requires j < 684
    ensures a < 12289
  {
    if k < 12 then BlockOf(12 * j + k) else 0
  }

  function FileInode(j: nat): (ip: Inode)
    requires j < 684
  {
    Inode(2, 1, OFF, seq(13, k requires 0 <= k < 13 => AddrAt(j, k)))
  }

  function Bits(): (b: Block) {
    seq(512, i => if i < 511 then 255 else 127)
  }

  function StartBlock(b: nat): (r: Block) {
    if 100 <= b < 103 then Bits() else Zeroed()
  }

  function Owners(): (m: map<int, Slot>) {
    map a: int | 4077 <= a < 12287 && Used(a) :: SlotFor(IndexOf(a))
  }

  function Start(): (v: Vol) {
    Vol(seq(12289, b requires 0 <= b < 12289 => StartBlock(b)), seq(684, j requires 0 <= j < 684 => FileInode(j)), Owners())
  }

  // ---------------------------------------------------------------- it is sound

  /** The lowest `n` bits. */
  lemma {:induction false} Ones(n: nat, j: nat)
    ensures Pow2(n) >= 1 && (HasBit(Pow2(n) - 1, j) <==> j < n)
    decreases n, j
  {
    if n > 0 {
      Ones(n - 1, if j > 0 then j - 1 else 0);
      assert (Pow2(n) - 1) / 2 == Pow2(n - 1) - 1;
    } else if j > 0 {
      Ones(0, j - 1);
    }
  }

  lemma {:induction false} ByteOnes(j: nat)
    requires j < 8
    ensures HasBit(255, j) && (HasBit(127, j) <==> j != 7) && !HasBit(0, j)
  {
    assert Pow2(0) == 1 && Pow2(7) == 128 && Pow2(8) == 256 by {
      assert Pow2(2) == 4 && Pow2(4) == 16 && Pow2(6) == 64;
    }
    Ones(8, j);
    Ones(7, j);
    Ones(0, j);
  }

  lemma {:induction false} BitsAt(k: nat)
    requires k < BPB
    ensures GetBit(Bits(), k) <==> k != BPB - 1
    ensures !GetBit(Zeroed(), k)
  {
    hide HasBit;
    ByteOnes(k % 8);
    assert k / 8 == 511 && k % 8 == 7 <==> k == 4095;
  }

  lemma {:induction false} StartMarked(b: nat)
    requires b < 12289
    ensures ValidSuper(SB) && |Start().disk| == 12289
    ensures InUse(SB, Start().disk, b) <==> b < 4077 || Used(b)
  {
    hide GetBit, Bits, Zeroed;
    BitsAt(b % BPB);
    assert b / 4096 == if b < 4096 then 0 else if b < 8192 then 1 else if b < 12288 then 2 else 3;
  }

  lemma {:induction false} StartShaped()
    ensures Shaped(SB, Start())
  {
    forall i | 0 <= i < SB.ninodes
      ensures ShapedInode(SB, Start().inode[i])
    {
    }
  }

  lemma {:induction false} SlotIs(j: nat, k: nat)
    requires j < 684 && k < 12
    ensures 12 * j + k < 8208 && SlotFor(12 * j + k) == Direct(j, k)
  {
  }

  lemma {:induction false} StartAddr(s: Slot)
    requires Shaped(SB, Start()) && SlotOk(SB, s)
    ensures AddrOf(SB, Start(), s) == if s.Direct? then (SlotIs(s.ino, s.k); BlockOf(12 * s.ino + s.k)) else 0
  {
  }

  lemma {:induction false} StartOwned()
    requires Shaped(SB, Start())
    ensures Owned(SB, Start())
  {
    hide AddrOf, Shaped;
    var v := Start();
    forall s | SlotOk(SB, s) && AddrOf(SB, v, s) != 0
      ensures AddrOf(SB, v, s) in v.owner && v.owner[AddrOf(SB, v, s)] == s
    {
      StartAddr(s);
      SlotIs(s.ino, s.k);
      IndexBlock(12 * s.ino + s.k);
    }
    forall a | a in v.owner
      ensures SB.nmeta <= a < SB.size && SlotOk(SB, v.owner[a]) && AddrOf(SB, v, v.owner[a]) == a
    {
      var y := IndexOf(a);
      assert y / 12 < 684 && y % 12 < 12 && 12 * (y / 12) + y % 12 == y;
      StartAddr(v.owner[a]);
    }
  }

  lemma {:induction false} StartSound()
    ensures Sound(SB, Start()) && |Start().owner| == 8208 && NoHoles(SB, Start(), 0) && Room(SB, Start()) == 4
  {
    var v := Start();
    StartShaped();
    StartOwned();
    forall b: nat | b < SB.size
      ensures InUse(SB, v.disk, b) <==> b < SB.nmeta || b in v.owner.Keys
    {
      StartMarked(b);
    }
    forall p | 0 <= p < v.inode[0].size && p < MAXBYTES
      ensures Mapped(SB, v, 0, p)
    {
      StartAddr(FileSlot(0, p / BSIZE));
    }
    OwnerCount();
  }

  lemma {:induction false} OwnerCount()
    ensures |Start().owner| == 8208
  {
    hide Between, SlotFor, IndexOf;
    var m := Owners();
    assert forall a :: a in m.Keys <==> Used(a);
    hide Owners;
    var all := Between(4077, 12287);
    assert m.Keys == all - {4095} - {8191};
  }

  lemma {:induction false} StartNeeds()
    requires Shaped(SB, Start())
    ensures BlocksPast(OFF, CHUNK) == 15 && OFF / BSIZE == 11 && NeedsAll(SB, Start(), 0, 11, 15) == 4
  {
    hide AddrOf, Shaped;
    var v := Start();
    StartAddr(FileSlot(0, 11));
    StartAddr(FileSlot(0, 12));
    StartAddr(FileSlot(0, 13));
    StartAddr(FileSlot(0, 14));
    StartAddr(Table(0));
    assert Unmapped(SB, v, 0, 11, 11) == 0;
    assert Unmapped(SB, v, 0, 11, 12) == 0;
    assert Unmapped(SB, v, 0, 11, 13) == 1;
    assert Unmapped(SB, v, 0, 11, 14) == 2;
    assert Unmapped(SB, v, 0, 11, 15) == 3;
  }

  // ---------------------------------------------------------------- what the chunk changes

  /** The owners there were stay. */
  lemma {:induction false} UsedStays(w: Vol, a: int)
    requires Stays(SB, Start(), w) && Used(a)
    ensures a in w.owner && w.owner[a].Direct?
  {
    hide AddrOf, Marked, Start, BlockOf;
    SoundShaped(SB, Start());
    var y := IndexOf(a);
    assert y / 12 < 684 && y % 12 < 12 && 12 * (y / 12) + y % 12 == y;
    var t := SlotFor(y);
    StartAddr(t);
    assert AddrOf(SB, w, t) == a;
  }

  /** A slot that was empty can only have got one of the four free blocks. */
  lemma {:induction false} OneOfFour(w: Vol, s: Slot)
    requires Stays(SB, Start(), w) && SlotOk(SB, s) && !s.Direct? && AddrOf(SB, w, s) != 0
    ensures AddrOf(SB, w, s) as int in FREE && AddrOf(SB, w, s) as int in w.owner && w.owner[AddrOf(SB, w, s) as int] == s
  {
    hide AddrOf, Marked, Start;
    var a := AddrOf(SB, w, s);
    assert a as int in w.owner && w.owner[a as int] == s;
    if Used(a) {
      UsedStays(w, a);
    }
  }

  /** After the chunk. */
  ghost predicate After(w: Vol) {
    && Stays(SB, Start(), w) && SoundNoHoles(SB, w, 0) && w.inode[0].size == OFF + CHUNK
    && forall p :: OFF <= p < OFF + CHUNK ==> ByteAt(SB, w, 0, p) == 1
  }

  ghost function T(w: Vol): (a: int)
    requires Shaped(SB, w)
  {
    AddrOf(SB, w, Table(0))
  }

  ghost function E(w: Vol, k: nat): (a: int)
    requires Shaped(SB, w) && k < 3
  {
    AddrOf(SB, w, Entry(0, k))
  }

  lemma {:induction false} NewBlocks(w: Vol)
    requires After(w)
    ensures Sound(SB, w) && Shaped(SB, w) && {T(w), E(w, 0), E(w, 1), E(w, 2)} == FREE && FREE <= w.owner.Keys
  {
    hide AddrOf, Sound, NoHoles, Shaped, ByteAt, Start;
    SoundShaped(SB, w);
    EntryThere(w, 0);
    EntryThere(w, 1);
    EntryThere(w, 2);
    TableThere(w, 0);
    OneOfFour(w, Table(0));
    OneOfFour(w, Entry(0, 0));
    OneOfFour(w, Entry(0, 1));
    OneOfFour(w, Entry(0, 2));
    var s := {T(w), E(w, 0), E(w, 1), E(w, 2)};
    assert |{T(w)} + {E(w, 0)}| == 2 && |{T(w)} + {E(w, 0)} + {E(w, 1)}| == 3;
    assert s == {T(w)} + {E(w, 0)} + {E(w, 1)} + {E(w, 2)};
    SameSize(s, FREE);
  }

  lemma {:induction false} EntryThere(w: Vol, k: nat)
    requires Shaped(SB, w) && SB.ninodes > 0 && NoHoles(SB, w, 0) && w.inode[0].size == OFF + CHUNK && k < 3
    ensures AddrOf(SB, w, Entry(0, k)) != 0
  {
    hide AddrOf, Shaped;
    assert Mapped(SB, w, 0, (12 + k) * BSIZE);
    assert FileSlot(0, 12 + k) == Entry(0, k);
  }

  lemma {:induction false} TableThere(w: Vol, k: nat)
    requires Shaped(SB, w) && k < 3 && E(w, k) != 0
    ensures T(w) != 0
  {
  }

  /** The bits of the four blocks are set. */
  lemma {:induction false} BitmapsChange(w: Vol, b: nat)
    requires After(w) && b as int in FREE
    ensures b / BPB + 100 < |w.disk| && |w.disk| == |Start().disk| && w.disk[b / BPB + 100] != Start().disk[b / BPB + 100]
  {
    hide InUse, AddrOf, Start, Owned, NoHoles, ByteAt, T, E;
    NewBlocks(w);
    StartMarked(b);
    assert InUse(SB, w.disk, b);
    BitDiffers(Start().disk, w.disk, b);
  }

  lemma {:induction false} BitDiffers(d: Disk, e: Disk, b: nat)
    requires ValidSuper(SB) && SB.size <= |d| == |e| && b < SB.size && InUse(SB, e, b) && !InUse(SB, d, b)
    ensures b / BPB + 100 < |d| && e[b / BPB + 100] != d[b / BPB + 100]
  {
  }

  /** The blocks written are no longer zero. */
  lemma {:induction false} ByteChanges(w: Vol, p: nat)
    requires After(w) && OFF <= p < OFF + CHUNK
    ensures Shaped(SB, w) && BlockAddr(SB, w, 0, p / BSIZE) < |w.disk| == |Start().disk|
    ensures BlockAddr(SB, w, 0, p / BSIZE) >= 4077 ==>
              w.disk[BlockAddr(SB, w, 0, p / BSIZE)] != Start().disk[BlockAddr(SB, w, 0, p / BSIZE)]
  {
    SoundShaped(SB, w);
    BlockAddrBound(SB, w, 0, p / BSIZE);
    assert ByteAt(SB, w, 0, p) == 1;
    hide AddrOf, Sound, Shaped, NoHoles;
    if BlockAddr(SB, w, 0, p / BSIZE) >= 4077 {
      StartZero(BlockAddr(SB, w, 0, p / BSIZE));
    }
  }

  lemma {:induction false} StartZero(a: nat)
    requires 4077 <= a < 12289
    ensures |Start().disk| == 12289 && Start().disk[a] == Zeroed()
  {
  }

  lemma {:induction false} TableChanges(w: Vol)
    requires After(w)
    ensures Shaped(SB, w) && 4077 <= T(w) < |w.disk| == |Start().disk| && w.disk[T(w)] != Start().disk[T(w)]
  {
    NewBlocks(w);
    hide Sound, NoHoles, ByteAt, Marked, Owned, Start, GetWord, Zeroed;
    assert T(w) in {T(w), E(w, 0), E(w, 1), E(w, 2)} && E(w, 0) in {T(w), E(w, 0), E(w, 1), E(w, 2)};
    StartZero(T(w));
    assert GetWord(w.disk[T(w)], 0) == E(w, 0);
    ZeroWord(0);
  }

  /** All of them are different from what they were. */
  lemma {:induction false} AllChange(w: Vol, logged: set<int>)
    requires After(w) && Covers(Start().disk, w.disk, logged)
    ensures {100, 101, 102, 103, 4088, 4095, 8191, 12287, 12288} <= logged
  {
    hide After, AddrOf, Sound, Shaped, Start, BlockAddr;
    NewBlocks(w);
    BitmapsChange(w, 4095);
    BitmapsChange(w, 8191);
    BitmapsChange(w, 12287);
    BitmapsChange(w, 12288);
    ByteChanges(w, OFF);
    ByteChanges(w, 12 * BSIZE);
    ByteChanges(w, 13 * BSIZE);
    ByteChanges(w, 14 * BSIZE);
    TableChanges(w);
    LastDirect(w);
    EntryIs(w, 0);
    EntryIs(w, 1);
    EntryIs(w, 2);
    var four := {T(w), E(w, 0), E(w, 1), E(w, 2)};
    assert E(w, 0) in four && E(w, 1) in four && E(w, 2) in four;
    assert four <= logged;
  }

  lemma {:induction false} EntryIs(w: Vol, k: nat)
    requires Shaped(SB, w) && k < 3
    ensures BlockAddr(SB, w, 0, 12 + k) == E(w, k)
  {
  }

  lemma {:induction false} LastDirect(w: Vol)
    requires After(w)
    ensures Shaped(SB, w) && BlockAddr(SB, w, 0, OFF / BSIZE) == 4088
  {
    StartShaped();
    SoundShaped(SB, w);
    StartAddr(Direct(0, 11));
    hide AddrOf, Sound, Shaped, NoHoles, ByteAt;
    assert SlotOk(SB, Direct(0, 11));
    assert FileSlot(0, OFF / BSIZE) == Direct(0, 11);
  }

  // ---------------------------------------------------------------- the chunk

  lemma {:induction false} AfterWrite(w: Vol, src: seq<Byte>)
    requires Stays(SB, Start(), w) && |src| == CHUNK && (forall k :: 0 <= k < CHUNK ==> src[k] == 1)
    requires WroteFile(SB, Start(), w, 0, OFF, src)
    ensures After(w)
  {
    hide Sound, NoHoles, ByteAt, Stays;
    SoundShaped(SB, w);
    SoundShaped(SB, Start());
    var c, e := Content(SB, Start(), 0), Content(SB, w, 0);
    assert |c| == OFF && |e| == OFF + CHUNK;
    forall p | OFF <= p < OFF + CHUNK
      ensures ByteAt(SB, w, 0, p) == 1
    {
      assert e[p] == src[p - OFF];
      assert ByteAt(SB, w, 0, p) == e[p];
    }
  }

  const SRC: seq<Byte> := seq(CHUNK, _ => 1)

  /** One chunk is written to a file on a sound volume; it has logged every block it changed, and those are
      exactly as many as begin_op() reserves. */
  method UsesWholeReservation() returns (f: File, fs: Fs, r: WriteResult, ghost v: Vol)
    ensures fs.sb == SB && Sound(SB, v) && NoHoles(SB, v, 0) && v.inode[0].size == OFF
    ensures r == Written(CHUNK) && fs.Valid() && WroteFile(SB, v, fs.V(), 0, OFF, SRC)
    ensures Recorded(SB, Stored(v.disk, v.inode), Stored(fs.disk, fs.dinode), fs.logged) && |fs.logged| == MAXOPBLOCKS
  {
    hide Sound, NoHoles, Stays, WroteFile, After, NeedsAll, Room, BlocksPast, Covers;
    StartSound();
    SoundShaped(SB, Start());
    StartNeeds();
    fs := new Fs(SB, Start().disk, Start().inode, Start().owner);
    f := new File(0, true, OFF);
    v := fs.V();
    assert v == Start();
    r := WriteChunk(f, fs, SRC);
    AfterWrite(fs.V(), SRC);
    AllChange(fs.V(), fs.logged);
    SizeChanges(fs.V());
    var all := {2, 100, 101, 102, 103, 4088, 4095, 8191, 12287, 12288};
    assert all <= fs.logged;
    Ten();
    SubsetSize(all, fs.logged);
  }

  lemma {:induction false} SizeChanges(w: Vol)
    requires After(w)
    ensures |w.inode| == 684 && w.inode[0] != Start().inode[0] && IBlock(SB, 0) == 2
  {
    SoundShaped(SB, w);
    hide Stays, Sound, NoHoles, ByteAt;
  }

  lemma {:induction false} Ten()
    ensures |{2, 100, 101, 102, 103, 4088, 4095, 8191, 12287, 12288}| == 10
  {
  }
}
