/** filewrite of file.c: a large write split into chunks, each a system-call transaction of its own
    that stays within the log space begin_op reserves for it. */
module FileWrite {
  import opened Blocks
  import opened Volume
  import opened FileSystem
  import opened Space
  import LogImages

  const MAXOPBLOCKS := LogImages.MAXOPBLOCKS
  const CHUNK := (MAXOPBLOCKS - 1 - 1 - 2) / 2 * 512

  datatype FileResult = Wrote(n: nat) | Failed | ToDevice | OutOfSpace

  lemma {:induction false} OverwriteTwice(c: seq<Byte>, off: nat, a: seq<Byte>, b: seq<Byte>)
    requires off <= |c|
    ensures off + |a| <= |Overwrite(c, off, a)|
    ensures Overwrite(Overwrite(c, off, a), off + |a|, b) == Overwrite(c, off, a + b)
  {
  }

  /** A chunk touches at most four blocks, and only three if it starts on a block boundary. */
  lemma {:induction false} ChunkTouches(off: nat, n: nat)
    requires n <= CHUNK
    ensures Touched(off, n) <= if off % BSIZE == 0 then 3 else 4
  {
    if n > 0 {
      assert off == 512 * (off / 512) + off % 512;
      assert (off + n - 1) / 512 <= off / 512 + (off % 512 + n - 1) / 512;
    }
  }

  /** Data blocks, indirect block, inode block and bitmap blocks of one chunk fit the reservation. */
  lemma {:induction false} ChunkFits(ib: int, logged: set<int>, t0: set<int>, t: set<int>, off: nat, n: nat, data: set<int>, marks: set<int>)
    requires Budget({ib}, logged, t0, t, off, n, data, marks) && n <= CHUNK && |t| <= 1
    ensures |logged| <= MAXOPBLOCKS
  {
    ChunkTouches(off, n);
    var all := {ib} + data + marks + t;
    SubsetSize(logged, all);
    assert |all| <= 1 + |data| + |marks| + |t|;
    if n == 0 {
      assert Touched(off, n) == 0;
    }
  }

  /** struct file, for FD_INODE. */
  class File {
    const ip: nat
    const writable: bool
    var off: Word

    constructor (ip: nat, writable: bool, off: Word)
      ensures this.ip == ip && this.writable == writable && this.off == off
    {
      this.ip, this.writable, this.off := ip, writable, off;
    }
  }

  /** What of the file system is on disk. */
  datatype Stored = Stored(disk: Disk, dinode: seq<Inode>)

  /** One transaction: the disk before and after it, the blocks it logged, the volume it leaves, and how
      many bytes of the whole write are then in the file. */
  datatype Chunk = Chunk(before: Stored, after: Stored, logged: set<int>, vol: Vol, upto: nat)

  /** The transaction fits its reservation and has logged every block it changed. */
  ghost predicate Recorded(sb: Super, before: Stored, after: Stored, logged: set<int>) {
    && |logged| <= MAXOPBLOCKS
    && Covers(before.disk, after.disk, logged)
    && |after.dinode| == |before.dinode|
    && forall j :: 0 <= j < |after.dinode| && after.dinode[j] != before.dinode[j] ==> IBlock(sb, j) as int in logged
  }

  /** Transaction number `k` of a write of `addr` at `off` of a file on volume `v`: as above, and what is on
      disk after it is the file with its first bytes written, if memory and disk had the same inodes. */
  ghost predicate Part(sb: Super, v: Vol, synced: bool, c: Chunk, k: nat, ip: nat, off: nat, addr: seq<Byte>) {
    && Recorded(sb, c.before, c.after, c.logged)
    && c.after.disk == c.vol.disk && (synced ==> c.after.dinode == c.vol.inode)
    && Partly(sb, v, c.vol, ip, off, addr, c.upto)
    && c.upto == Upto(k + 1, |addr|)
  }

  /** The bytes of the first `k` chunks of `n` bytes. */
  function Upto(k: nat, n: nat): (m: nat)
    ensures m <= n && Upto(0, n) == 0
  {
    if CHUNK * k < n then CHUNK * k else n
  }

  /** The transactions lead from `s` to `t` without gaps. */
  ghost predicate Chained(s: Stored, chunks: seq<Chunk>, t: Stored) {
    if chunks == [] then t == s
    else
      && chunks[0].before == s && chunks[|chunks| - 1].after == t
      && forall k :: 0 < k < |chunks| ==> chunks[k - 1].after == chunks[k].before
  }

  ghost function LastOf(s: Stored, chunks: seq<Chunk>): (t: Stored) {
    if chunks == [] then s else chunks[|chunks| - 1].after
  }

  lemma {:induction false} ChainedLast(s: Stored, chunks: seq<Chunk>, t: Stored)
    requires Chained(s, chunks, t)
    ensures t == LastOf(s, chunks)
  {
  }

  lemma {:induction false} ChainedStep(s: Stored, chunks: seq<Chunk>, c: Chunk)
    requires Chained(s, chunks, c.before)
    ensures Chained(s, chunks + [c], c.after)
  {
  }

  /** The file after the first `i` bytes of `addr` have gone in at `off`; other files as they were. */
  ghost predicate Partly(sb: Super, v: Vol, w: Vol, ip: nat, off: nat, addr: seq<Byte>, i: nat) {
    && SoundNoHoles(sb, v, ip) && SoundNoHoles(sb, w, ip) && i <= |addr|
    && w.inode[ip].typ == v.inode[ip].typ
    && (i == 0 ==> w == v)
    && (i > 0 ==>
          && off <= v.inode[ip].size && off + i <= w.inode[ip].size && off + i <= MAXBYTES
          && Content(sb, w, ip) == Overwrite(Content(sb, v, ip), off, addr[..i]))
    && OthersSame(sb, v, w, ip)
  }

  ghost predicate OthersSame(sb: Super, v: Vol, w: Vol, ip: nat) {
    forall j :: 0 <= j < sb.ninodes && j != ip && SoundNoHoles(sb, v, j) ==>
      SoundNoHoles(sb, w, j) && Content(sb, w, j) == Content(sb, v, j)
  }

  lemma {:induction false} OthersStep(sb: Super, v: Vol, w: Vol, x: Vol, ip: nat, off: nat, src: seq<Byte>)
    requires OthersSame(sb, v, w, ip) && WroteFile(sb, w, x, ip, off, src)
    ensures OthersSame(sb, v, x, ip)
  {
    hide Sound, NoHoles, Content;
  }

  /** One more chunk of bytes. */
  lemma {:induction false} BytesStep(c: seq<Byte>, cw: seq<Byte>, off: nat, addr: seq<Byte>, i: nat, n: nat)
    requires off <= |c| && 0 < n && i + n <= |addr|
    requires cw == if i == 0 then c else Overwrite(c, off, addr[..i])
    ensures off + i <= |cw| && Overwrite(cw, off + i, addr[i..i + n]) == Overwrite(c, off, addr[..i + n])
    ensures off + i + n <= |Overwrite(c, off, addr[..i + n])|
  {
    assert addr[..i] + addr[i..i + n] == addr[..i + n];
    if i == 0 {
      assert addr[0..n] == addr[..n];
    } else {
      OverwriteTwice(c, off, addr[..i], addr[i..i + n]);
    }
  }

  /** One more chunk. */
  lemma {:induction false} PartlyStep(sb: Super, v: Vol, w: Vol, x: Vol, ip: nat, off: nat, addr: seq<Byte>, i: nat, n: nat)
    requires Partly(sb, v, w, ip, off, addr, i) && 0 < n && i + n <= |addr|
    requires WroteFile(sb, w, x, ip, off + i, addr[i..i + n]) && off + i + n <= MAXBYTES
    ensures Partly(sb, v, x, ip, off, addr, i + n)
  {
    hide Sound, NoHoles, Content, OthersSame, Overwrite, Shaped;
    OthersStep(sb, v, w, x, ip, off + i, addr[i..i + n]);
    SoundShaped(sb, v);
    SoundShaped(sb, w);
    SoundShaped(sb, x);
    BytesStep(Content(sb, v, ip), Content(sb, w, ip), off, addr, i, n);
  }

  /** begin_op(); writei(); f->off += r; end_op(): one chunk as a system-call transaction. */
  method WriteChunk(f: File, fs: Fs, src: seq<Byte>) returns (r: WriteResult)
    requires fs.Valid() && f.ip < fs.sb.ninodes && NoHoles(fs.sb, fs.V(), f.ip) && |src| <= CHUNK
    modifies f, fs
    ensures r.WriteDevice? <==> old(fs.inode)[f.ip].typ == T_DEV
    ensures r.WriteError? <==> old(fs.inode)[f.ip].typ != T_DEV && (old(f.off) > old(fs.inode)[f.ip].size || old(f.off) + |src| > MAXBYTES)
    ensures r.WritePanic? ==> Full(fs.sb, fs.disk)
    ensures r.Written? || r.WritePanic? ==>
              var first, past := old(f.off) / BSIZE, BlocksPast(old(f.off), |src|);
              past <= MAXFILE && (r.WritePanic? <==> Room(fs.sb, old(fs.V())) < NeedsAll(fs.sb, old(fs.V()), f.ip, first, past))
    ensures r.WriteDevice? || r.WriteError? ==>
              f.off == old(f.off) && fs.Valid() && fs.V() == old(fs.V()) && fs.dinode == old(fs.dinode) && fs.logged == {}
    ensures r.Written? ==>
              && fs.Valid() && r.n == |src| && f.off == old(f.off) + |src| && WroteFile(fs.sb, old(fs.V()), fs.V(), f.ip, old(f.off), src)
              && Stays(fs.sb, old(fs.V()), fs.V())
              && Filling(fs.sb, old(fs.V()), fs.V(), f.ip, old(f.off) / BSIZE, BlocksPast(old(f.off), |src|))
              && fs.dinode == (if fs.inode[f.ip] == old(fs.inode)[f.ip] then old(fs.dinode) else old(fs.dinode)[f.ip := fs.inode[f.ip]])
              && Recorded(fs.sb, Stored(old(fs.disk), old(fs.dinode)), Stored(fs.disk, fs.dinode), fs.logged)
  {
    hide Sound, NoHoles, Content, WroteFile, Budget, Full, ShapedInode, Covers, Stays, NeedsAll, Room, BlocksPast, Filling;
    SoundShaped(fs.sb, fs.V());
    fs.logged := {};
    ghost var data, marks;
    r, data, marks := fs.Writei(f.ip, src, f.off);
    if r.Written? {
      SoundShaped(fs.sb, fs.V());
      InodeTable(fs.sb, old(fs.inode)[f.ip]);
      InodeTable(fs.sb, fs.inode[f.ip]);
      ghost var ib := IBlock(fs.sb, f.ip) as int;
      assert {} + {ib} == {ib};
      ChunkFits(ib, fs.logged, TableSet(old(fs.inode)[f.ip]), TableSet(fs.inode[f.ip]), f.off, |src|, data, marks);
      f.off := f.off + r.n;
    }
  }

  lemma {:induction false} InodeTable(sb: Super, ip: Inode)
    requires ShapedInode(sb, ip)
    ensures |ip.addrs| == NDIRECT + 1 && |TableSet(ip)| <= 1
  {
  }

  /** How much of a write of `n` bytes at `off` gets into a file of `size` bytes: all of it if it fits,
      else the whole chunks that do. */
  function Accepted(off: nat, n: nat, size: nat): (k: nat)
    requires size <= MAXBYTES
  {
    if n == 0 then 0
    else if off > size then 0
    else if off + n <= MAXBYTES then n
    else CHUNK * ((MAXBYTES - off) / CHUNK)
  }

  /** A chunk is refused exactly when the chunks before it are all that can be accepted. */
  lemma {:induction false} RefusedIs(off: nat, n: nat, size: nat, done: nat, n1: nat, k: nat)
    requires size <= MAXBYTES && off <= size && done == CHUNK * k && done < n && off + done <= MAXBYTES
    requires n1 == (if n - done > CHUNK then CHUNK else n - done) && off + done + n1 > MAXBYTES
    ensures Accepted(off, n, size) == done < n
  {
    assert CHUNK == 1536;
    WholeChunks(MAXBYTES - off, k);
  }

  lemma {:induction false} WholeChunks(room: nat, k: nat)
    requires 1536 * k <= room < 1536 * k + 1536
    ensures room / 1536 == k
  {
  }

  /** filewrite(), for an open file on an inode. The transactions chain from the disk before to the disk
      after, and each has logged all it changed, at most MAXOPBLOCKS blocks. The call succeeds exactly
      when the file is writable and the whole write fits; otherwise the chunks that fit are in the file,
      the offset is past them, and -1 is returned. */
  method Filewrite(f: File, fs: Fs, addr: seq<Byte>) returns (r: FileResult, done: nat, ghost chunks: seq<Chunk>)
    requires fs.Valid() && f.ip < fs.sb.ninodes && NoHoles(fs.sb, fs.V(), f.ip) && |addr| < 0x8000_0000
    modifies f, fs
    ensures forall k :: 0 <= k < |chunks| ==>
              Part(fs.sb, old(fs.V()), old(fs.dinode) == old(fs.inode), chunks[k], k, f.ip, old(f.off), addr)
    ensures r.OutOfSpace? ==> Full(fs.sb, fs.disk)
    ensures old(fs.inode)[f.ip].size <= MAXBYTES
    ensures var fits := Accepted(old(f.off), |addr|, old(fs.inode)[f.ip].size);
            r.OutOfSpace? <==>
              && f.writable && old(fs.inode)[f.ip].typ != T_DEV
              && Room(fs.sb, old(fs.V())) < WriteNeeds(fs.sb, old(fs.V()), f.ip, old(f.off), fits)
    ensures r.OutOfSpace? ==>
              && done == Upto(|chunks|, |addr|)
              && WriteNeeds(fs.sb, old(fs.V()), f.ip, old(f.off), done) <= Room(fs.sb, old(fs.V()))
              && Room(fs.sb, old(fs.V())) < WriteNeeds(fs.sb, old(fs.V()), f.ip, old(f.off), Upto(|chunks| + 1, |addr|))
    ensures var s := Stored(old(fs.disk), old(fs.dinode));
            Chained(s, chunks, LastOf(s, chunks)) && (!r.OutOfSpace? ==> LastOf(s, chunks) == Stored(fs.disk, fs.dinode))
    ensures !r.OutOfSpace? ==>
              && f.off == old(f.off) + done && fs.Valid() && Partly(fs.sb, old(fs.V()), fs.V(), f.ip, old(f.off), addr, done)
    ensures r.ToDevice? <==> f.writable && addr != [] && old(fs.inode)[f.ip].typ == T_DEV
    ensures var fits := Accepted(old(f.off), |addr|, old(fs.inode)[f.ip].size);
            && (r.Wrote? ==> f.writable && fits == done == r.n == |addr|)
            && (r.Failed? ==> done == if f.writable then fits else 0)
            && (r.Failed? ==> f.writable ==> done < |addr|)
            && (r.ToDevice? ==> done == 0)
  {
    hide Sound, WroteFile, Full, Partly, Recorded, Chained, Accepted, Part, Stays, NeedsAll, Room, BlocksPast, NoHoles, Shaped, Going, Filling, WriteNeeds, Upto;
    chunks, done := [], 0;
    ghost var v, sb := fs.V(), fs.sb;
    ghost var s, synced := Stored(fs.disk, fs.dinode), fs.dinode == fs.inode;
    GoingStart(sb, v, synced, fs.dinode, f.ip, f.off, addr);
    GoingFacts(sb, v, synced, s, f.ip, f.off, addr, chunks, 0, v, fs.dinode);
    ghost var size := v.inode[f.ip].size;
    NothingNeeds(sb, v, f.ip, f.off, |addr|, size);
    if !f.writable {
      return Failed, done, chunks;
    }
    while done < |addr|
      invariant 0 <= done <= |addr| && fs.Valid() && fs.sb == sb && f.ip < sb.ninodes && f.off == old(f.off) + done
      invariant Going(sb, v, synced, s, f.ip, old(f.off), addr, chunks, done, fs.V(), fs.dinode)
      invariant done > 0 ==> v.inode[f.ip].typ != T_DEV
    {
      var n1 := if |addr| - done > CHUNK then CHUNK else |addr| - done;
      ghost var w, was := fs.V(), fs.dinode;
      GoingFacts(sb, v, synced, s, f.ip, old(f.off), addr, chunks, done, w, was);
      var o := WriteChunk(f, fs, addr[done..done + n1]);
      match o {
        case WriteError =>
          GoingFits(sb, v, synced, s, f.ip, old(f.off), addr, chunks, done, w, was);
          Refused(old(f.off), |addr|, size, w.inode[f.ip].size, done, n1, |chunks|);
          return Failed, done, chunks;
        case WriteDevice => return ToDevice, done, chunks;
        case WritePanic =>
          SoundShaped(sb, w);
          GoingFits(sb, v, synced, s, f.ip, old(f.off), addr, chunks, done, w, was);
          GoingStops(sb, v, synced, s, f.ip, old(f.off), addr, chunks, done, n1, w, was, size);
          return OutOfSpace, done, chunks;
        case Written(n) =>
          SoundShaped(sb, w);
          SoundShaped(sb, fs.V());
          chunks := GoingStep(sb, v, synced, s, f.ip, old(f.off), addr, chunks, done, n1, w, was, fs.V(), fs.dinode, fs.logged);
          done := done + n;
      }
    }
    GoingFacts(sb, v, synced, s, f.ip, old(f.off), addr, chunks, done, fs.V(), fs.dinode);
    GoingFits(sb, v, synced, s, f.ip, old(f.off), addr, chunks, done, fs.V(), fs.dinode);
    AcceptedAll(old(f.off), |addr|, size);
    return Wrote(|addr|), done, chunks;
  }

  /** The state of filewrite() between two chunks: `done` bytes have gone in, volume and on-disk inodes are
      `w` and `dinode`. */
  ghost predicate Going(sb: Super, v: Vol, synced: bool, s: Stored, ip: nat, off: nat, addr: seq<Byte>,
                        chunks: seq<Chunk>, done: nat, w: Vol, dinode: seq<Inode>) {
    && Partly(sb, v, w, ip, off, addr, done)
    && (forall j :: 0 <= j < |chunks| ==> Part(sb, v, synced, chunks[j], j, ip, off, addr))
    && Chained(s, chunks, Stored(w.disk, dinode))
    && (done == CHUNK * |chunks| || done == |addr|) && (synced ==> dinode == w.inode)
    && (done > 0 ==> Filling(sb, v, w, ip, off / BSIZE, BlocksPast(off, done)))
  }

  lemma {:induction false} GoingStart(sb: Super, v: Vol, synced: bool, dinode: seq<Inode>, ip: nat, off: nat, addr: seq<Byte>)
    requires SoundNoHoles(sb, v, ip) && (synced ==> dinode == v.inode)
    ensures Going(sb, v, synced, Stored(v.disk, dinode), ip, off, addr, [], 0, v, dinode)
  {
    hide Partly;
    PartlyStart(sb, v, ip, off, addr);
  }

  lemma {:induction false} GoingFacts(sb: Super, v: Vol, synced: bool, s: Stored, ip: nat, off: nat, addr: seq<Byte>,
                                      chunks: seq<Chunk>, done: nat, w: Vol, dinode: seq<Inode>)
    requires Going(sb, v, synced, s, ip, off, addr, chunks, done, w, dinode)
    ensures SoundNoHoles(sb, w, ip) && Partly(sb, v, w, ip, off, addr, done)
    ensures ip < |v.inode| && ip < |w.inode| && w.inode[ip].typ == v.inode[ip].typ
    ensures v.inode[ip].size <= MAXBYTES && w.inode[ip].size <= MAXBYTES
    ensures done == 0 ==> w == v
    ensures done > 0 ==> off <= v.inode[ip].size && off + done <= w.inode[ip].size && off + done <= MAXBYTES
    ensures forall j :: 0 <= j < |chunks| ==> Part(sb, v, synced, chunks[j], j, ip, off, addr)
    ensures Chained(s, chunks, LastOf(s, chunks)) && LastOf(s, chunks) == Stored(w.disk, dinode)
    ensures done == CHUNK * |chunks| || done == |addr|
  {
    hide Partly, Part, Chained;
    PartlyFacts(sb, v, w, ip, off, addr, done);
    ChainedLast(s, chunks, Stored(w.disk, dinode));
  }

  lemma {:induction false} GoingStep(sb: Super, v: Vol, synced: bool, s: Stored, ip: nat, off: nat, addr: seq<Byte>,
                                     chunks: seq<Chunk>, done: nat, n: nat, w: Vol, was: seq<Inode>,
                                     x: Vol, dinode: seq<Inode>, logged: set<int>) returns (more: seq<Chunk>)
    requires Going(sb, v, synced, s, ip, off, addr, chunks, done, w, was) && done < |addr|
    requires n == (if |addr| - done > CHUNK then CHUNK else |addr| - done) && off + done + n <= MAXBYTES
    requires WroteFile(sb, w, x, ip, off + done, addr[done..done + n])
    requires Filling(sb, w, x, ip, (off + done) / BSIZE, BlocksPast(off + done, n))
    requires Recorded(sb, Stored(w.disk, was), Stored(x.disk, dinode), logged)
    requires |was| == |w.inode| == |x.inode| == sb.ninodes
    requires dinode == if x.inode[ip] == w.inode[ip] then was else was[ip := x.inode[ip]]
    ensures Going(sb, v, synced, s, ip, off, addr, more, done + n, x, dinode)
  {
    hide Partly, Part, Chained, WroteFile, Recorded, Filling, BlocksPast, Upto;
    FillsOn(sb, v, w, x, ip, off, addr, done, n);
    SyncedStep(sb, w, x, ip, off + done, addr[done..done + n], was, dinode);
    var c := Chunk(Stored(w.disk, was), Stored(x.disk, dinode), logged, x, done + n);
    ChainedStep(s, chunks, c);
    PartlyStep(sb, v, w, x, ip, off, addr, done, n);
    UptoIs(|addr|, done, n, |chunks|);
    PartIs(sb, v, synced, c, |chunks|, ip, off, addr);
    more := chunks + [c];
  }

  lemma {:induction false} UptoIs(n: nat, done: nat, n1: nat, k: nat)
    requires done < n && (done == CHUNK * k || done == n) && n1 == if n - done > CHUNK then CHUNK else n - done
    ensures done == Upto(k, n) && done + n1 == Upto(k + 1, n) && (done + n1 == CHUNK * (k + 1) || done + n1 == n)
  {
    assert CHUNK == 1536;
  }

  lemma {:induction false} FillsOn(sb: Super, v: Vol, w: Vol, x: Vol, ip: nat, off: nat, addr: seq<Byte>, done: nat, n: nat)
    requires Partly(sb, v, w, ip, off, addr, done) && 0 < n && off + done + n <= MAXBYTES
    requires done > 0 ==> Filling(sb, v, w, ip, off / BSIZE, BlocksPast(off, done))
    requires Filling(sb, w, x, ip, (off + done) / BSIZE, BlocksPast(off + done, n))
    ensures Filling(sb, v, x, ip, off / BSIZE, BlocksPast(off, done + n))
  {
    hide Partly, Filling, BlocksPast, Shaped;
    if done > 0 {
      GoingLast(sb, v, w, ip, off, addr, done, n);
      PastOn(off, done, n);
      FillingJoin(sb, v, w, x, ip, off / BSIZE, BlocksPast(off, done), (off + done) / BSIZE, BlocksPast(off + done, n));
    } else {
      PartlyFacts(sb, v, w, ip, off, addr, done);
    }
  }

  /** The last block written to is there. */
  lemma {:induction false} GoingLast(sb: Super, v: Vol, w: Vol, ip: nat, off: nat, addr: seq<Byte>, done: nat, n: nat)
    requires Partly(sb, v, w, ip, off, addr, done) && 0 < done && 0 < n && off + done + n <= MAXBYTES
    ensures Shaped(sb, w) && ip < sb.ninodes && BlockAddr(sb, w, ip, BlocksPast(off, done) - 1) != 0
  {
    hide Content, OthersSame, Owned, Marked, AddrOf;
    PastOn(off, done, n);
    assert Mapped(sb, w, ip, off + done - 1);
  }

  /** What is there to be allocated for has been. */
  lemma {:induction false} GoingFits(sb: Super, v: Vol, synced: bool, s: Stored, ip: nat, off: nat, addr: seq<Byte>,
                                     chunks: seq<Chunk>, done: nat, w: Vol, dinode: seq<Inode>)
    requires Going(sb, v, synced, s, ip, off, addr, chunks, done, w, dinode)
    ensures WriteNeeds(sb, v, ip, off, done) <= Room(sb, v)
  {
    hide Part, Chained, Content, OthersSame, NeedsAll, Room, BlocksPast, Filling;
    RoomLeft(sb, v);
    if done > 0 {
      FillingDone(sb, v, w, ip, off / BSIZE, BlocksPast(off, done));
    }
  }

  /** A chunk that finds too few blocks is the first for which there never were enough. */
  lemma {:induction false} GoingStops(sb: Super, v: Vol, synced: bool, s: Stored, ip: nat, off: nat, addr: seq<Byte>,
                                      chunks: seq<Chunk>, done: nat, n: nat, w: Vol, dinode: seq<Inode>, size: nat)
    requires Going(sb, v, synced, s, ip, off, addr, chunks, done, w, dinode) && done < |addr|
    requires n == (if |addr| - done > CHUNK then CHUNK else |addr| - done) && off + done + n <= MAXBYTES
    requires Shaped(sb, w) && ip < sb.ninodes && ip < |v.inode| && size == v.inode[ip].size <= MAXBYTES && off + done <= w.inode[ip].size
    requires BlocksPast(off + done, n) <= MAXFILE
    requires Room(sb, w) < NeedsAll(sb, w, ip, (off + done) / BSIZE, BlocksPast(off + done, n))
    ensures done == Upto(|chunks|, |addr|)
    ensures Room(sb, v) < WriteNeeds(sb, v, ip, off, Upto(|chunks| + 1, |addr|))
    ensures Room(sb, v) < WriteNeeds(sb, v, ip, off, Accepted(off, |addr|, size))
  {
    hide Part, Chained, Shaped, NeedsAll, BlocksPast, Filling, Partly, Upto, Accepted, Room, Sound, NoHoles;
    PartlyFacts(sb, v, w, ip, off, addr, done);
    SoundStart(sb, v, w, ip, off, addr, done);
    if done > 0 {
      GoingLast(sb, v, w, ip, off, addr, done, n);
      PastOn(off, done, n);
      JoinNeeds(sb, v, w, ip, off / BSIZE, BlocksPast(off, done), (off + done) / BSIZE, BlocksPast(off + done, n));
      FillingOwners(sb, v, w, ip, off / BSIZE, BlocksPast(off, done));
    }
    assert Room(sb, v) < WriteNeeds(sb, v, ip, off, done + n);
    FitsMore(off, |addr|, size, done, n, |chunks|);
    NeedsMore(sb, v, ip, off, done + n, Accepted(off, |addr|, size));
  }

  lemma {:induction false} SoundStart(sb: Super, v: Vol, w: Vol, ip: nat, off: nat, addr: seq<Byte>, done: nat)
    requires Partly(sb, v, w, ip, off, addr, done)
    ensures Shaped(sb, v)
  {
  }

  lemma {:induction false} FillingOwners(sb: Super, v: Vol, w: Vol, i: nat, lo: nat, b: nat)
    requires Filling(sb, v, w, i, lo, b)
    ensures Shaped(sb, v) && Room(sb, w) == Room(sb, v) - NeedsAll(sb, v, i, lo, b)
  {
    hide Owned, Marked, NeedsAll;
  }

  /** A chunk that is not refused is among what is accepted. */
  lemma {:induction false} FitsMore(off: nat, n: nat, size: nat, done: nat, n1: nat, k: nat)
    requires size <= MAXBYTES && off <= size && done < n && (done == CHUNK * k || done == n)
    requires n1 == (if n - done > CHUNK then CHUNK else n - done) && off + done + n1 <= MAXBYTES
    ensures done == Upto(k, n) && done + n1 == Upto(k + 1, n)
    ensures done + n1 <= Accepted(off, n, size) && off + Accepted(off, n, size) <= MAXBYTES
  {
    UptoIs(n, done, n1, k);
    assert CHUNK == 1536;
    if off + n > MAXBYTES {
      assert done + n1 == 1536 * (k + 1) <= MAXBYTES - off;
      ChunksBelow(MAXBYTES - off, k + 1);
    }
  }

  lemma {:induction false} ChunksBelow(room: nat, k: nat)
    requires 1536 * k <= room
    ensures 1536 * k <= 1536 * (room / 1536) <= room
  {
  }

  lemma {:induction false} NothingNeeds(sb: Super, v: Vol, ip: nat, off: nat, n: nat, size: nat)
    requires Sound(sb, v) && size <= MAXBYTES
    ensures Room(sb, v) >= 0 && WriteNeeds(sb, v, ip, off, 0) == 0
    ensures n == 0 ==> Accepted(off, n, size) == 0
  {
    RoomLeft(sb, v);
  }

  lemma {:induction false} PartIs(sb: Super, v: Vol, synced: bool, c: Chunk, k: nat, ip: nat, off: nat, addr: seq<Byte>)
    requires Recorded(sb, c.before, c.after, c.logged) && c.after.disk == c.vol.disk && (synced ==> c.after.dinode == c.vol.inode)
    requires Partly(sb, v, c.vol, ip, off, addr, c.upto)
    requires c.upto == Upto(k + 1, |addr|)
    ensures Part(sb, v, synced, c, k, ip, off, addr)
  {
    hide Recorded, Partly;
  }

  /** writei() writes the inode back if it changes it. */
  lemma {:induction false} SyncedStep(sb: Super, w: Vol, x: Vol, ip: nat, off: nat, src: seq<Byte>, was: seq<Inode>, dinode: seq<Inode>)
    requires WroteFile(sb, w, x, ip, off, src) && |was| == |w.inode| == |x.inode| == sb.ninodes
    requires dinode == if x.inode[ip] == w.inode[ip] then was else was[ip := x.inode[ip]]
    ensures was == w.inode ==> dinode == x.inode
  {
    hide Sound, NoHoles, Content;
  }

  lemma {:induction false} AcceptedAll(off: nat, n: nat, size: nat)
    requires size <= MAXBYTES && (n == 0 || (off <= size && off + n <= MAXBYTES))
    ensures Accepted(off, n, size) == n
  {
  }

  /** `now` is the size of the file after the chunks accepted so far. */
  lemma {:induction false} Refused(off: nat, n: nat, size: nat, now: nat, done: nat, n1: nat, k: nat)
    requires size <= MAXBYTES && now <= MAXBYTES && done == CHUNK * k && done < n
    requires n1 == (if n - done > CHUNK then CHUNK else n - done)
    requires if done == 0 then now == size else off <= size && off + done <= now
    requires off + done > now || off + done + n1 > MAXBYTES
    ensures Accepted(off, n, size) == done < n
  {
    if off <= size {
      RefusedIs(off, n, size, done, n1, k);
    }
  }

  lemma {:induction false} PartlyStart(sb: Super, v: Vol, ip: nat, off: nat, addr: seq<Byte>)
    requires SoundNoHoles(sb, v, ip)
    ensures Partly(sb, v, v, ip, off, addr, 0)
  {
  }

  lemma {:induction false} PartlyFacts(sb: Super, v: Vol, w: Vol, ip: nat, off: nat, addr: seq<Byte>, i: nat)
    requires Partly(sb, v, w, ip, off, addr, i)
    ensures SoundNoHoles(sb, w, ip) && ip < |v.inode| && ip < |w.inode| && w.inode[ip].typ == v.inode[ip].typ
    ensures v.inode[ip].size <= MAXBYTES && w.inode[ip].size <= MAXBYTES
    ensures i == 0 ==> w == v
    ensures i > 0 ==> off <= v.inode[ip].size && off + i <= w.inode[ip].size && off + i <= MAXBYTES
  {
  }
}
