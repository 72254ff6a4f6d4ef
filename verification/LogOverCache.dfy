/** commit() of log.c running on the buffer cache of bio.c: it always finds a buffer, reads the
    pinned contents and not the disk's, and leaves nothing pinned. */
module LogOverCache {
  import opened Options
  import opened Blocks
  import opened BufferCache
  import LogImages

  /** Nobody holds a buffer. */
  ghost predicate AllReleased(bufs: seq<Buf>) {
    forall i :: 0 <= i < |bufs| ==> bufs[i].refcnt == 0
  }

  /** A block has at most one buffer. */
  lemma {:induction false} OnlyCopy(bufs: seq<Buf>, disk: map<Key, Block>, logical: map<Key, Block>, i: nat, j: nat)
    requires Coherent(bufs, disk, logical) && i < |bufs| && j < |bufs|
    requires bufs[i].key == bufs[j].key && bufs[i].key.0 != 0
    ensures i == j
  {
  }

  /** Each pinned buffer accounts for a different block. */
  lemma {:induction false} PinnedAtMost(bufs: seq<Buf>, keys: set<Key>)
    requires forall i :: 0 <= i < |bufs| && bufs[i].dirty ==> bufs[i].key in keys
    requires forall i, j :: 0 <= i < j < |bufs| && bufs[i].dirty && bufs[j].dirty ==> bufs[i].key != bufs[j].key
    ensures DirtyCount(bufs) <= |keys|
  {
    if bufs != [] {
      var n := |bufs| - 1;
      if bufs[n].dirty {
        PinnedAtMost(bufs[..n], keys - {bufs[n].key});
      } else {
        PinnedAtMost(bufs[..n], keys);
      }
    }
  }

  /** The cache after both buffers of a transfer have been used and released. */
  lemma {:induction false} TwoUpdates(bufs: seq<Buf>, l: nat, h: nat, bl: Buf, bh: Buf)
    requires l < |bufs| && h < |bufs| && l != h && AllReleased(bufs)
    requires !bufs[l].dirty && !bl.dirty && bl.refcnt == 0 && bh.refcnt == 0
    requires bh.key == bufs[h].key
    ensures var r := bufs[l := bl][h := bh];
            && AllReleased(r)
            && DirtyCount(r) == DirtyCount(bufs) + (if bh.dirty then 1 else 0) - (if bufs[h].dirty then 1 else 0)
            && forall k: Key :: k != bh.key || bh.dirty == bufs[h].dirty ==> (Pinned(bufs, k) <==> Pinned(r, k))
  {
    var s := bufs[l := bl];
    var r := s[h := bh];
    DirtyCountUpdate(bufs, l, bl);
    DirtyCountUpdate(s, h, bh);
    forall k: Key | bh.dirty == bufs[h].dirty || k != bh.key
      ensures Pinned(bufs, k) <==> Pinned(r, k)
    {
      forall i | 0 <= i < |bufs|
        ensures bufs[i].key == k && bufs[i].dirty <==> r[i].key == k && r[i].dirty
      {
      }
    }
  }

  /** What the loops of write_log() and install_trans() need of the cache. */
  ghost predicate Ready(c: Cache)
    reads c, c.buf, c.next, c.prev
  {
    c.Valid() && AllReleased(c.buf[..]) && DirtyCount(c.buf[..]) < NBUF
  }

  /** The two bread calls of an iteration of write_log() or install_trans(): a log block, then the
      pinned home block. Neither ends in the "no buffers" panic. */
  method ReadBoth(c: Cache, log: Key, home: Key) returns (l: nat, h: nat)
    requires Ready(c) && log.0 != 0 && home.0 != 0 && log != home
    requires log in c.disk && home in c.disk
    requires Pinned(c.buf[..], home) && !Pinned(c.buf[..], log)
    modifies c.buf
    ensures c.Valid() && l < NBUF && h < NBUF && l != h
    ensures c.buf[..] == old(c.buf[..])[l := c.buf[l]][h := c.buf[h]]
    ensures !old(c.buf[l]).dirty && c.Reads(old(c.buf[l]), c.buf[l], log)
    ensures old(c.buf[h]).dirty && old(c.buf[h]).key == home && c.Reads(old(c.buf[h]), c.buf[h], home)
  {
    hide Coherent, Listed, Stamped, DirtyCount, AllReleased, Pinned, Cached;
    ghost var s0 := c.buf[..];
    ghost var p := PinnedAt(s0, home);
    ghost var free := Available(s0);
    assert !Busy(old(c.buf[free]));
    var rl := c.Bread(log.0, log.1);
    l := rl.value;
    ghost var s1 := c.buf[..];
    CachedAt(s0, l);
    assert !s0[l].dirty && l != p;
    CachedAt(s1, p);
    var rh := c.Bread(home.0, home.1);
    h := rh.value;
    OnlyCopy(s1, c.disk, c.logical, h, p);
  }

  /** One iteration of write_log() (`toLog`) or of install_trans(): read the log block, read its
      home block, copy one into the other and write that one. */
  method Transfer(c: Cache, log: Key, home: Key, toLog: bool)
    requires Ready(c) && log.0 != 0 && home.0 != 0 && log != home
    requires log in c.disk && home in c.disk && log in c.logical && home in c.logical
    requires Pinned(c.buf[..], home) && !Pinned(c.buf[..], log)
    modifies c, c.buf, c.next, c.prev
    ensures Ready(c)
    ensures var src, dst := if toLog then home else log, if toLog then log else home;
            && c.disk == old(c.disk)[dst := old(c.logical)[src]]
            && c.logical == old(c.logical)[dst := old(c.logical)[src]]
    ensures forall k: Key :: k != home || toLog ==> (Pinned(c.buf[..], k) <==> Pinned(old(c.buf[..]), k))
    ensures !toLog ==> !Pinned(c.buf[..], home)
  {
    hide Coherent, Listed, Stamped, DirtyCount, AllReleased, Pinned, Cached;
    ghost var s0 := c.buf[..];
    var l, h := ReadBoth(c, log, home);
    ReleasedAt(s0, l);
    ReleasedAt(s0, h);
    if toLog {
      c.Bwrite(l, c.buf[h].data);
      c.Brelse(h);
      c.Brelse(l);
    } else {
      c.Bwrite(h, c.buf[l].data);
      c.Brelse(l);
      c.Brelse(h);
    }
    assert c.buf[..] == s0[l := c.buf[l]][h := c.buf[h]];
    TwoUpdates(s0, l, h, c.buf[l], c.buf[h]);
    if !toLog {
      NoLongerPinned(c.buf[..], c.disk, c.logical, h);
    }
  }

  lemma {:induction false} NoLongerPinned(bufs: seq<Buf>, disk: map<Key, Block>, logical: map<Key, Block>, h: nat)
    requires Coherent(bufs, disk, logical) && h < |bufs| && bufs[h].key.0 != 0 && !bufs[h].dirty
    ensures !Pinned(bufs, bufs[h].key)
  {
  }

  lemma {:induction false} ReleasedAt(bufs: seq<Buf>, i: nat)
    requires AllReleased(bufs) && i < |bufs|
    ensures bufs[i].refcnt == 0
  {
  }

  lemma {:induction false} PinnedAt(bufs: seq<Buf>, k: Key) returns (p: nat)
    requires Pinned(bufs, k)
    ensures p < |bufs| && bufs[p].key == k && bufs[p].dirty
  {
    p :| 0 <= p < |bufs| && bufs[p].key == k && bufs[p].dirty;
  }

  lemma {:induction false} Available(bufs: seq<Buf>) returns (i: nat)
    requires AllReleased(bufs) && DirtyCount(bufs) < |bufs|
    ensures i < |bufs| && !Busy(bufs[i])
  {
    var f := FreeExists(bufs);
    i := f;
  }

  lemma {:induction false} CachedAt(bufs: seq<Buf>, i: nat)
    requires i < |bufs|
    ensures Cached(bufs, bufs[i].key)
    ensures bufs[i].dirty ==> Pinned(bufs, bufs[i].key)
  {
  }

  /** The blocks of a transaction: pinned home blocks outside a log that is not pinned itself. */
  ghost predicate Transaction(bufs: seq<Buf>, disk: map<Key, Block>, dev: nat, start: nat, blocks: seq<Word>) {
    && dev != 0
    && (forall i, j :: 0 <= i < j < |blocks| ==> blocks[i] != blocks[j])
    && (forall i :: start <= i <= start + |blocks| ==> (dev, i) in disk && !Pinned(bufs, (dev, i)))
    && (forall i :: 0 <= i < |blocks| ==>
          (dev, blocks[i]) in disk && Pinned(bufs, (dev, blocks[i])) && !(start <= blocks[i] <= start + |blocks|))
  }

  ghost predicate InLog(k: Key, dev: nat, start: nat, n: nat) {
    k.0 == dev && start <= k.1 <= start + n
  }

  /** The disk after a sequence of block writes. */
  ghost function Replay(disk: map<Key, Block>, ws: seq<(Key, Block)>): (r: map<Key, Block>) {
    if ws == [] then disk else Replay(disk, ws[..|ws| - 1])[ws[|ws| - 1].0 := ws[|ws| - 1].1]
  }

  lemma {:induction false} ReplayMore(disk: map<Key, Block>, ws: seq<(Key, Block)>, w: (Key, Block))
    ensures Replay(disk, ws + [w]) == Replay(disk, ws)[w.0 := w.1]
  {
    assert (ws + [w])[..|ws|] == ws;
  }

  lemma {:induction false} ReplayAppend(disk: map<Key, Block>, a: seq<(Key, Block)>, b: seq<(Key, Block)>)
    ensures Replay(disk, a + b) == Replay(Replay(disk, a), b)
    decreases |b|
  {
    if b == [] {
      assert a + b == a;
    } else {
      var n := |b| - 1;
      assert (a + b)[..|a + b| - 1] == a + b[..n];
      ReplayAppend(disk, a, b[..n]);
    }
  }

  ghost function Seen(m: map<Key, Block>, k: Key): (b: Block) {
    if k in m then m[k] else Zeroed()
  }

  /** The writes of write_log() and of install_trans(). */
  ghost predicate ToLog(ws: seq<(Key, Block)>, logical: map<Key, Block>, dev: nat, start: nat, blocks: seq<Word>) {
    && |ws| <= |blocks|
    && forall i :: 0 <= i < |ws| ==> ws[i] == ((dev, start + 1 + i), Seen(logical, (dev, blocks[i])))
  }

  ghost predicate ToHome(ws: seq<(Key, Block)>, logical: map<Key, Block>, dev: nat, start: nat, blocks: seq<Word>) {
    && |ws| <= |blocks|
    && forall i :: 0 <= i < |ws| ==> ws[i] == ((dev, blocks[i]), Seen(logical, (dev, start + 1 + i)))
  }

  lemma {:induction false} ToLogMore(ws: seq<(Key, Block)>, logical: map<Key, Block>, dev: nat, start: nat, blocks: seq<Word>, w: (Key, Block))
    requires ToLog(ws, logical, dev, start, blocks) && |ws| < |blocks|
    requires w == ((dev, start + 1 + |ws|), Seen(logical, (dev, blocks[|ws|])))
    ensures ToLog(ws + [w], logical, dev, start, blocks)
  {
    hide Seen;
  }

  lemma {:induction false} ToHomeMore(ws: seq<(Key, Block)>, logical: map<Key, Block>, dev: nat, start: nat, blocks: seq<Word>, w: (Key, Block))
    requires ToHome(ws, logical, dev, start, blocks) && |ws| < |blocks|
    requires w == ((dev, blocks[|ws|]), Seen(logical, (dev, start + 1 + |ws|)))
    ensures ToHome(ws + [w], logical, dev, start, blocks)
  {
    hide Seen;
  }

  lemma {:induction false} NoWrites(disk: map<Key, Block>, logical: map<Key, Block>, dev: nat, start: nat, blocks: seq<Word>)
    ensures Replay(disk, []) == disk && ToLog([], logical, dev, start, blocks) && ToHome([], logical, dev, start, blocks)
  {
  }

  /** Disk and cache after `tail` rounds of write_log(), from `disk0` and `logical0`. */
  ghost predicate LogSoFar(disk0: map<Key, Block>, logical0: map<Key, Block>, disk: map<Key, Block>, logical: map<Key, Block>,
                           dev: nat, start: nat, blocks: seq<Word>, tail: nat) {
    && disk.Keys == logical.Keys == disk0.Keys == logical0.Keys && tail <= |blocks|
    && (forall b: nat :: start < b <= start + |blocks| ==> (dev, b) in logical)
    && (forall i :: 0 <= i < |blocks| ==> (dev, blocks[i]) in logical)
    && (forall i :: 0 <= i < tail ==> logical[(dev, start + 1 + i)] == logical0[(dev, blocks[i])])
    && (forall k :: k in disk && !InLog(k, dev, start, |blocks|) ==> disk[k] == disk0[k] && logical[k] == logical0[k])
  }

  lemma {:induction false} LogOneMore(disk0: map<Key, Block>, logical0: map<Key, Block>, disk: map<Key, Block>, logical: map<Key, Block>,
                                      dev: nat, start: nat, blocks: seq<Word>, tail: nat)
    requires LogSoFar(disk0, logical0, disk, logical, dev, start, blocks, tail) && tail < |blocks|
    requires !(start <= blocks[tail] <= start + |blocks|)
    ensures (dev, blocks[tail]) in logical && (dev, blocks[tail]) in logical0 && logical[(dev, blocks[tail])] == logical0[(dev, blocks[tail])]
    ensures var log: Key, x := (dev, start + 1 + tail), logical[(dev, blocks[tail])];
            LogSoFar(disk0, logical0, disk[log := x], logical[log := x], dev, start, blocks, tail + 1)
  {
    var home: Key := (dev, blocks[tail]);
    assert !InLog(home, dev, start, |blocks|);
  }

  /** The state after `tail` rounds of write_log(), whose writes are `ws`. */
  ghost predicate LogStage(bufs0: seq<Buf>, disk0: map<Key, Block>, logical0: map<Key, Block>, bufs: seq<Buf>, disk: map<Key, Block>, logical: map<Key, Block>,
                           dev: nat, start: nat, blocks: seq<Word>, ws: seq<(Key, Block)>) {
    && Transaction(bufs0, disk0, dev, start, blocks) && |ws| <= |blocks|
    && LogSoFar(disk0, logical0, disk, logical, dev, start, blocks, |ws|)
    && (forall k: Key :: Pinned(bufs, k) <==> Pinned(bufs0, k))
    && ToLog(ws, logical0, dev, start, blocks) && disk == Replay(disk0, ws)
  }

  lemma {:induction false} LogStageStart(bufs: seq<Buf>, disk: map<Key, Block>, logical: map<Key, Block>, dev: nat, start: nat, blocks: seq<Word>)
    requires disk.Keys == logical.Keys && Transaction(bufs, disk, dev, start, blocks)
    ensures LogStage(bufs, disk, logical, bufs, disk, logical, dev, start, blocks, [])
    ensures HomeStage(bufs, disk, logical, bufs, disk, logical, dev, start, blocks, [])
  {
    hide Pinned, LogSoFar, HomeSoFar, ToLog, ToHome, Replay, Transaction, PinnedLess;
    LogStart(bufs, disk, logical, dev, start, blocks);
    NoWrites(disk, logical, dev, start, blocks);
    PinnedAll(bufs, bufs, dev, blocks);
  }

  /** What the next round needs. */
  lemma {:induction false} LogStageFacts(bufs0: seq<Buf>, disk0: map<Key, Block>, logical0: map<Key, Block>, bufs: seq<Buf>, disk: map<Key, Block>, logical: map<Key, Block>,
                                         dev: nat, start: nat, blocks: seq<Word>, ws: seq<(Key, Block)>)
    requires LogStage(bufs0, disk0, logical0, bufs, disk, logical, dev, start, blocks, ws) && |ws| < |blocks|
    ensures var log: Key, home: Key := (dev, start + 1 + |ws|), (dev, blocks[|ws|]);
            dev != 0 && log != home && Pinned(bufs, home) && !Pinned(bufs, log)
            && log in disk && log in logical && home in disk && home in logical
  {
    hide Pinned, LogSoFar, ToLog, Replay, Transaction;
    LogRound(bufs0, disk0, bufs, dev, start, blocks, |ws|);
    LogThere(disk0, logical0, disk, logical, dev, start, blocks, |ws|);
  }

  lemma {:induction false} LogStageMore(bufs0: seq<Buf>, disk0: map<Key, Block>, logical0: map<Key, Block>, bufs: seq<Buf>, disk: map<Key, Block>, logical: map<Key, Block>,
                                        dev: nat, start: nat, blocks: seq<Word>, ws: seq<(Key, Block)>, bufs': seq<Buf>, w: (Key, Block))
    requires LogStage(bufs0, disk0, logical0, bufs, disk, logical, dev, start, blocks, ws) && |ws| < |blocks|
    requires forall k: Key :: Pinned(bufs', k) <==> Pinned(bufs, k)
    requires (dev, blocks[|ws|]) in logical && w == ((dev, start + 1 + |ws|), logical[(dev, blocks[|ws|])])
    ensures LogStage(bufs0, disk0, logical0, bufs', disk[w.0 := w.1], logical[w.0 := w.1], dev, start, blocks, ws + [w])
  {
    hide Pinned, LogSoFar, ToLog, Replay, Transaction;
    LogRound(bufs0, disk0, bufs, dev, start, blocks, |ws|);
    LogOneMore(disk0, logical0, disk, logical, dev, start, blocks, |ws|);
    ReplayMore(disk0, ws, w);
    ToLogMore(ws, logical0, dev, start, blocks, w);
  }

  /** write_log(): every pinned block of the transaction reaches its log block. */
  method WriteLog(c: Cache, dev: nat, start: nat, blocks: seq<Word>) returns (ghost ws: seq<(Key, Block)>)
    requires Ready(c) && c.disk.Keys == c.logical.Keys && Transaction(c.buf[..], c.disk, dev, start, blocks)
    modifies c, c.buf, c.next, c.prev
    ensures Ready(c) && |ws| == |blocks|
    ensures LogStage(old(c.buf[..]), old(c.disk), old(c.logical), c.buf[..], c.disk, c.logical, dev, start, blocks, ws)
  {
    hide Pinned, Ready, LogStage, HomeStage, Transaction;
    ghost var bufs0, disk0, logical0 := c.buf[..], c.disk, c.logical;
    LogStageStart(bufs0, disk0, logical0, dev, start, blocks);
    ws := [];
    var tail := 0;
    while tail < |blocks|
      invariant 0 <= tail <= |blocks| && Ready(c) && |ws| == tail
      invariant LogStage(bufs0, disk0, logical0, c.buf[..], c.disk, c.logical, dev, start, blocks, ws)
    {
      ghost var bufs, disk, logical := c.buf[..], c.disk, c.logical;
      LogStageFacts(bufs0, disk0, logical0, bufs, disk, logical, dev, start, blocks, ws);
      ghost var w: (Key, Block) := ((dev, start + 1 + tail), logical[(dev, blocks[tail])]);
      Transfer(c, (dev, start + 1 + tail), (dev, blocks[tail]), true);
      LogStageMore(bufs0, disk0, logical0, bufs, disk, logical, dev, start, blocks, ws, c.buf[..], w);
      ws := ws + [w];
      tail := tail + 1;
    }
  }

  lemma {:induction false} LogStart(bufs: seq<Buf>, disk: map<Key, Block>, logical: map<Key, Block>, dev: nat, start: nat, blocks: seq<Word>)
    requires disk.Keys == logical.Keys && Transaction(bufs, disk, dev, start, blocks)
    ensures LogSoFar(disk, logical, disk, logical, dev, start, blocks, 0)
    ensures HomeSoFar(disk, logical, disk, logical, dev, start, blocks, 0)
  {
    hide Pinned;
    assert blocks[..0] == [];
  }

  /** What a round of write_log() needs. */
  lemma {:induction false} LogRound(bufs0: seq<Buf>, disk0: map<Key, Block>, bufs: seq<Buf>, dev: nat, start: nat, blocks: seq<Word>, tail: nat)
    requires Transaction(bufs0, disk0, dev, start, blocks) && tail < |blocks| && forall k: Key :: Pinned(bufs, k) <==> Pinned(bufs0, k)
    ensures dev != 0 && !(start <= blocks[tail] <= start + |blocks|)
    ensures Pinned(bufs, (dev, blocks[tail])) && !Pinned(bufs, (dev, start + 1 + tail))
  {
    hide Pinned;
    var home: Key, log: Key := (dev, blocks[tail]), (dev, start + 1 + tail);
    assert !Pinned(bufs0, log) && Pinned(bufs0, home);
  }

  lemma {:induction false} LogThere(disk0: map<Key, Block>, logical0: map<Key, Block>, disk: map<Key, Block>, logical: map<Key, Block>,
                                    dev: nat, start: nat, blocks: seq<Word>, tail: nat)
    requires LogSoFar(disk0, logical0, disk, logical, dev, start, blocks, tail) && tail < |blocks|
    ensures (dev, start + 1 + tail) in disk && (dev, blocks[tail]) in disk && disk.Keys == logical.Keys
  {
  }

  /** Disk and cache after `tail` rounds of install_trans(). */
  ghost predicate HomeSoFar(disk0: map<Key, Block>, logical0: map<Key, Block>, disk: map<Key, Block>, logical: map<Key, Block>,
                            dev: nat, start: nat, blocks: seq<Word>, tail: nat) {
    && disk.Keys == logical.Keys == disk0.Keys == logical0.Keys && tail <= |blocks|
    && (forall b: nat :: start < b <= start + |blocks| ==> (dev, b) in logical)
    && (forall i :: 0 <= i < |blocks| ==> (dev, blocks[i]) in logical)
    && (forall i :: 0 <= i < tail ==> logical[(dev, blocks[i])] == logical0[(dev, start + 1 + i)])
    && (forall k :: k in logical && !(k.0 == dev && k.1 in blocks[..tail]) ==> logical[k] == logical0[k])
  }

  lemma {:induction false} HomeOneMore(disk0: map<Key, Block>, logical0: map<Key, Block>, disk: map<Key, Block>, logical: map<Key, Block>,
                                       dev: nat, start: nat, blocks: seq<Word>, tail: nat)
    requires HomeSoFar(disk0, logical0, disk, logical, dev, start, blocks, tail) && tail < |blocks|
    requires forall i, j :: 0 <= i < j < |blocks| ==> blocks[i] != blocks[j]
    requires forall i :: 0 <= i < |blocks| ==> !(start <= blocks[i] <= start + |blocks|)
    ensures (dev, start + 1 + tail) in logical && (dev, start + 1 + tail) in logical0
    ensures logical[(dev, start + 1 + tail)] == logical0[(dev, start + 1 + tail)]
    ensures (dev, start + 1 + tail) in disk && (dev, blocks[tail]) in disk && disk.Keys == logical.Keys
    ensures blocks[tail] !in blocks[..tail] && blocks[..tail + 1] == blocks[..tail] + [blocks[tail]]
    ensures var home: Key, x := (dev, blocks[tail]), logical[(dev, start + 1 + tail)];
            HomeSoFar(disk0, logical0, disk[home := x], logical[home := x], dev, start, blocks, tail + 1)
  {
    assert start + 1 + tail !in blocks[..tail];
    assert blocks[..tail + 1] == blocks[..tail] + [blocks[tail]];
  }

  /** What is pinned after `tail` rounds. */
  ghost predicate PinnedLess(bufs0: seq<Buf>, bufs: seq<Buf>, dev: nat, blocks: seq<Word>, tail: nat)
    requires tail <= |blocks|
  {
    forall k: Key :: Pinned(bufs, k) <==> Pinned(bufs0, k) && !(k.0 == dev && k.1 in blocks[..tail])
  }

  lemma {:induction false} PinnedMore(bufs0: seq<Buf>, bufs: seq<Buf>, bufs': seq<Buf>, dev: nat, blocks: seq<Word>, tail: nat)
    requires tail < |blocks| && PinnedLess(bufs0, bufs, dev, blocks, tail)
    requires var home: Key := (dev, blocks[tail]);
             !Pinned(bufs', home) && forall k: Key :: k != home ==> (Pinned(bufs', k) <==> Pinned(bufs, k))
    ensures PinnedLess(bufs0, bufs', dev, blocks, tail + 1)
  {
    hide Pinned;
    assert blocks[..tail + 1] == blocks[..tail] + [blocks[tail]];
  }

  lemma {:induction false} PinnedAll(bufs0: seq<Buf>, bufs: seq<Buf>, dev: nat, blocks: seq<Word>)
    ensures PinnedLess(bufs0, bufs0, dev, blocks, 0)
    ensures PinnedLess(bufs0, bufs, dev, blocks, |blocks|) ==>
              forall k: Key :: Pinned(bufs, k) <==> Pinned(bufs0, k) && !(k.0 == dev && k.1 in blocks)
  {
    hide Pinned;
    assert blocks[..|blocks|] == blocks && blocks[..0] == [];
  }

  /** What a round of install_trans() needs. */
  lemma {:induction false} HomeRound(bufs0: seq<Buf>, disk0: map<Key, Block>, bufs: seq<Buf>, dev: nat, start: nat, blocks: seq<Word>, tail: nat)
    requires Transaction(bufs0, disk0, dev, start, blocks) && tail < |blocks| && PinnedLess(bufs0, bufs, dev, blocks, tail)
    ensures dev != 0 && !(start <= blocks[tail] <= start + |blocks|)
    ensures Pinned(bufs, (dev, blocks[tail])) && !Pinned(bufs, (dev, start + 1 + tail))
    ensures forall i, j :: 0 <= i < j < |blocks| ==> blocks[i] != blocks[j]
    ensures forall i :: 0 <= i < |blocks| ==> !(start <= blocks[i] <= start + |blocks|)
  {
    hide Pinned;
    var home: Key, log: Key := (dev, blocks[tail]), (dev, start + 1 + tail);
    assert blocks[tail] !in blocks[..tail];
    assert !Pinned(bufs0, log) && Pinned(bufs0, home);
  }

  /** The state after `tail` rounds of install_trans(), whose writes are `ws`. */
  ghost predicate HomeStage(bufs0: seq<Buf>, disk0: map<Key, Block>, logical0: map<Key, Block>, bufs: seq<Buf>, disk: map<Key, Block>, logical: map<Key, Block>,
                            dev: nat, start: nat, blocks: seq<Word>, ws: seq<(Key, Block)>) {
    && Transaction(bufs0, disk0, dev, start, blocks) && |ws| <= |blocks|
    && HomeSoFar(disk0, logical0, disk, logical, dev, start, blocks, |ws|)
    && PinnedLess(bufs0, bufs, dev, blocks, |ws|)
    && ToHome(ws, logical0, dev, start, blocks) && disk == Replay(disk0, ws)
  }

  lemma {:induction false} HomeStageFacts(bufs0: seq<Buf>, disk0: map<Key, Block>, logical0: map<Key, Block>, bufs: seq<Buf>, disk: map<Key, Block>, logical: map<Key, Block>,
                                          dev: nat, start: nat, blocks: seq<Word>, ws: seq<(Key, Block)>)
    requires HomeStage(bufs0, disk0, logical0, bufs, disk, logical, dev, start, blocks, ws) && |ws| < |blocks|
    ensures var log: Key, home: Key := (dev, start + 1 + |ws|), (dev, blocks[|ws|]);
            dev != 0 && log != home && Pinned(bufs, home) && !Pinned(bufs, log)
            && log in disk && log in logical && home in disk && home in logical
  {
    hide Pinned, HomeSoFar, ToHome, Replay, Transaction, PinnedLess;
    HomeRound(bufs0, disk0, bufs, dev, start, blocks, |ws|);
    HomeOneMore(disk0, logical0, disk, logical, dev, start, blocks, |ws|);
  }

  lemma {:induction false} HomeStageMore(bufs0: seq<Buf>, disk0: map<Key, Block>, logical0: map<Key, Block>, bufs: seq<Buf>, disk: map<Key, Block>, logical: map<Key, Block>,
                                         dev: nat, start: nat, blocks: seq<Word>, ws: seq<(Key, Block)>, bufs': seq<Buf>, w: (Key, Block))
    requires HomeStage(bufs0, disk0, logical0, bufs, disk, logical, dev, start, blocks, ws) && |ws| < |blocks|
    requires var home: Key := (dev, blocks[|ws|]);
             !Pinned(bufs', home) && forall k: Key :: k != home ==> (Pinned(bufs', k) <==> Pinned(bufs, k))
    requires (dev, start + 1 + |ws|) in logical && w == ((dev, blocks[|ws|]), logical[(dev, start + 1 + |ws|)])
    ensures HomeStage(bufs0, disk0, logical0, bufs', disk[w.0 := w.1], logical[w.0 := w.1], dev, start, blocks, ws + [w])
  {
    hide Pinned, HomeSoFar, ToHome, Replay, Transaction, PinnedLess;
    HomeRound(bufs0, disk0, bufs, dev, start, blocks, |ws|);
    HomeOneMore(disk0, logical0, disk, logical, dev, start, blocks, |ws|);
    ReplayMore(disk0, ws, w);
    ToHomeMore(ws, logical0, dev, start, blocks, w);
    PinnedMore(bufs0, bufs, bufs', dev, blocks, |ws|);
  }

  /** install_trans(): every home block of the transaction gets its log block and is unpinned. */
  method InstallTrans(c: Cache, dev: nat, start: nat, blocks: seq<Word>) returns (ghost ws: seq<(Key, Block)>)
    requires Ready(c) && c.disk.Keys == c.logical.Keys && Transaction(c.buf[..], c.disk, dev, start, blocks)
    modifies c, c.buf, c.next, c.prev
    ensures Ready(c) && |ws| == |blocks|
    ensures HomeStage(old(c.buf[..]), old(c.disk), old(c.logical), c.buf[..], c.disk, c.logical, dev, start, blocks, ws)
  {
    hide Pinned, Ready, LogStage, HomeStage, Transaction;
    ghost var bufs0, disk0, logical0 := c.buf[..], c.disk, c.logical;
    LogStageStart(bufs0, disk0, logical0, dev, start, blocks);
    ws := [];
    var tail := 0;
    while tail < |blocks|
      invariant 0 <= tail <= |blocks| && Ready(c) && |ws| == tail
      invariant HomeStage(bufs0, disk0, logical0, c.buf[..], c.disk, c.logical, dev, start, blocks, ws)
    {
      ghost var bufs, disk, logical := c.buf[..], c.disk, c.logical;
      HomeStageFacts(bufs0, disk0, logical0, bufs, disk, logical, dev, start, blocks, ws);
      ghost var w: (Key, Block) := ((dev, blocks[tail]), logical[(dev, start + 1 + tail)]);
      Transfer(c, (dev, start + 1 + tail), (dev, blocks[tail]), false);
      HomeStageMore(bufs0, disk0, logical0, bufs, disk, logical, dev, start, blocks, ws, c.buf[..], w);
      ws := ws + [w];
      tail := tail + 1;
    }
  }

  /** write_head(): one more buffer, for the header block, which comes to list `blocks`. */
  method WriteHead(c: Cache, header: Key, blocks: seq<Word>)
    requires Ready(c) && header.0 != 0 && header in c.disk && header in c.logical && !Pinned(c.buf[..], header)
    requires |blocks| <= LogImages.LOGSIZE
    modifies c, c.buf, c.next, c.prev
    ensures var hb := LogImages.StoreHeader(old(c.logical)[header], blocks);
            Ready(c) && c.disk == old(c.disk)[header := hb] && c.logical == old(c.logical)[header := hb]
    ensures forall k: Key :: Pinned(c.buf[..], k) <==> Pinned(old(c.buf[..]), k)
  {
    hide Coherent, Listed, Stamped, DirtyCount, AllReleased, Pinned, Cached;
    ghost var s0 := c.buf[..];
    ghost var free := Available(s0);
    assert !Busy(old(c.buf[free]));
    var r := c.Bread(header.0, header.1);
    var l := r.value;
    CachedAt(s0, l);
    ReleasedAt(s0, l);
    c.Bwrite(l, LogImages.StoreHeader(c.buf[l].data, blocks));
    c.Brelse(l);
    assert c.buf[..] == s0[l := c.buf[l]];
    OneUpdate(s0, l, c.buf[l]);
  }

  lemma {:induction false} OneUpdate(bufs: seq<Buf>, l: nat, b: Buf)
    requires l < |bufs| && AllReleased(bufs) && !bufs[l].dirty && !b.dirty && b.refcnt == 0
    ensures var r := bufs[l := b];
            && AllReleased(r) && DirtyCount(r) == DirtyCount(bufs)
            && forall k: Key :: Pinned(bufs, k) <==> Pinned(r, k)
  {
    var r := bufs[l := b];
    DirtyCountUpdate(bufs, l, b);
    forall k: Key
      ensures Pinned(bufs, k) <==> Pinned(r, k)
    {
      forall i | 0 <= i < |bufs|
        ensures bufs[i].key == k && bufs[i].dirty <==> r[i].key == k && r[i].dirty
      {
      }
    }
  }

  ghost function Keys(dev: nat, blocks: seq<Word>): (s: set<Key>)
    ensures |s| <= |blocks| && forall k: Key :: k in s <==> k.0 == dev && k.1 in blocks
  {
    if blocks == [] then {} else Keys(dev, blocks[1..]) + {(dev, blocks[0])}
  }

  lemma {:induction false} RoomForCommit(c: Cache, dev: nat, blocks: seq<Word>)
    requires c.Valid() && AllReleased(c.buf[..]) && |blocks| < NBUF
    requires forall k: Key :: Pinned(c.buf[..], k) ==> k.0 == dev && k.1 in blocks
    ensures Ready(c)
  {
    var bufs := c.buf[..];
    forall i | 0 <= i < |bufs| && bufs[i].dirty
      ensures bufs[i].key in Keys(dev, blocks)
    {
      CachedAt(bufs, i);
    }
    PinnedAtMost(bufs, Keys(dev, blocks));
  }

  lemma {:induction false} NothingPinned(bufs: seq<Buf>, disk: map<Key, Block>, logical: map<Key, Block>, k: Key)
    requires Coherent(bufs, disk, logical) && k in disk && k in logical && !Pinned(bufs, k)
    ensures disk[k] == logical[k]
  {
  }

  /** The disk after write_head(). */
  ghost function Headed(disk: map<Key, Block>, header: Key, blocks: seq<Word>): (r: map<Key, Block>)
    requires header in disk && |blocks| <= LogImages.LOGSIZE
  {
    disk[header := LogImages.StoreHeader(disk[header], blocks)]
  }

  ghost predicate HeaderIs(hb: Block, blocks: seq<Word>) {
    GetWord(hb, 0) == |blocks| <= LogImages.LOGSIZE && LogImages.HeaderOf(hb) == blocks
  }

  /** The first half of commit(): log blocks, then the header. At this point the log on disk has the
      transaction, and no other block on disk has changed. */
  method LogAndHead(c: Cache, dev: nat, start: nat, blocks: seq<Word>) returns (ghost ws: seq<(Key, Block)>)
    requires Ready(c) && c.disk.Keys == c.logical.Keys && Transaction(c.buf[..], c.disk, dev, start, blocks)
    requires |blocks| <= LogImages.LOGSIZE
    modifies c, c.buf, c.next, c.prev
    ensures Ready(c) && LogSoFar(old(c.disk), old(c.logical), c.disk, c.logical, dev, start, blocks, |blocks|)
    ensures forall k: Key :: Pinned(c.buf[..], k) <==> Pinned(old(c.buf[..]), k)
    ensures (dev, start) in c.disk && HeaderIs(c.disk[(dev, start)], blocks)
    ensures forall i :: 0 <= i < |blocks| ==>
              && (dev, start + 1 + i) in c.disk && (dev, blocks[i]) in old(c.logical)
              && c.disk[(dev, start + 1 + i)] == old(c.logical)[(dev, blocks[i])]
    ensures |ws| == |blocks| && ToLog(ws, old(c.logical), dev, start, blocks)
    ensures (dev, start) in Replay(old(c.disk), ws) && c.disk == Headed(Replay(old(c.disk), ws), (dev, start), blocks)
  {
    hide Pinned, Ready, Coherent, Replay, ToLog, LogSoFar, LogImages.StoreHeader;
    ws := WriteLog(c, dev, start, blocks);
    ReadyCoherent(c);
    ghost var disk, logical := c.disk, c.logical;
    LogKeys(old(c.disk), old(c.logical), disk, logical, dev, start, blocks);
    NothingPinned(c.buf[..], c.disk, c.logical, (dev, start));
    WriteHead(c, (dev, start), blocks);
    LogHeaded(old(c.disk), old(c.logical), disk, logical, dev, start, blocks, c.disk[(dev, start)]);
    ReadyCoherent(c);
    forall i | 0 <= i < |blocks|
      ensures (dev, start + 1 + i) in c.disk && (dev, blocks[i]) in old(c.logical)
      ensures c.disk[(dev, start + 1 + i)] == old(c.logical)[(dev, blocks[i])]
    {
      LogAt(old(c.disk), old(c.logical), c.disk, c.logical, dev, start, blocks, i);
      NothingPinned(c.buf[..], c.disk, c.logical, (dev, start + 1 + i));
    }
  }

  lemma {:induction false} LogKeys(disk0: map<Key, Block>, logical0: map<Key, Block>, disk: map<Key, Block>, logical: map<Key, Block>,
                                   dev: nat, start: nat, blocks: seq<Word>)
    requires LogSoFar(disk0, logical0, disk, logical, dev, start, blocks, |blocks|)
    ensures disk.Keys == logical.Keys == disk0.Keys == logical0.Keys
  {
  }

  lemma {:induction false} LogAt(disk0: map<Key, Block>, logical0: map<Key, Block>, disk: map<Key, Block>, logical: map<Key, Block>,
                                 dev: nat, start: nat, blocks: seq<Word>, i: nat)
    requires LogSoFar(disk0, logical0, disk, logical, dev, start, blocks, |blocks|) && i < |blocks|
    ensures (dev, start + 1 + i) in logical && (dev, start + 1 + i) in disk && (dev, blocks[i]) in logical0
    ensures logical[(dev, start + 1 + i)] == logical0[(dev, blocks[i])]
  {
  }

  lemma {:induction false} LogHeaded(disk0: map<Key, Block>, logical0: map<Key, Block>, disk: map<Key, Block>, logical: map<Key, Block>,
                                     dev: nat, start: nat, blocks: seq<Word>, hb: Block)
    requires LogSoFar(disk0, logical0, disk, logical, dev, start, blocks, |blocks|) && (dev, start) in disk
    ensures LogSoFar(disk0, logical0, disk[(dev, start) := hb], logical[(dev, start) := hb], dev, start, blocks, |blocks|)
  {
  }

  /** The second half of commit(): home blocks, then the empty header. */
  method InstallAndClear(c: Cache, dev: nat, start: nat, blocks: seq<Word>) returns (ghost ws: seq<(Key, Block)>)
    requires Ready(c) && c.disk.Keys == c.logical.Keys && Transaction(c.buf[..], c.disk, dev, start, blocks)
    requires forall k: Key :: Pinned(c.buf[..], k) ==> k.0 == dev && k.1 in blocks
    modifies c, c.buf, c.next, c.prev
    ensures Ready(c) && c.disk.Keys == c.logical.Keys == old(c.disk.Keys)
    ensures forall k: Key :: !Pinned(c.buf[..], k)
    ensures forall i :: 0 <= i < |blocks| ==>
              (dev, blocks[i]) in c.logical && Seen(c.logical, (dev, blocks[i])) == Seen(old(c.logical), (dev, start + 1 + i))
    ensures forall k :: k in c.logical && k != (dev, start) && !(k.0 == dev && k.1 in blocks) ==>
              c.logical[k] == old(c.logical)[k]
    ensures (dev, start) in c.disk && HeaderIs(c.disk[(dev, start)], [])
    ensures |ws| == |blocks| && ToHome(ws, old(c.logical), dev, start, blocks)
    ensures (dev, start) in Replay(old(c.disk), ws) && c.disk == Headed(Replay(old(c.disk), ws), (dev, start), [])
  {
    hide Pinned, Ready, Coherent, Replay, ToHome, HomeSoFar, LogImages.StoreHeader, PinnedLess;
    ws := InstallTrans(c, dev, start, blocks);
    ReadyCoherent(c);
    PinnedAll(old(c.buf[..]), c.buf[..], dev, blocks);
    HomeKeys(old(c.disk), old(c.logical), c.disk, c.logical, dev, start, blocks);
    NothingPinned(c.buf[..], c.disk, c.logical, (dev, start));
    WriteHead(c, (dev, start), []);
  }

  lemma {:induction false} HomeKeys(disk0: map<Key, Block>, logical0: map<Key, Block>, disk: map<Key, Block>, logical: map<Key, Block>,
                                    dev: nat, start: nat, blocks: seq<Word>)
    requires HomeSoFar(disk0, logical0, disk, logical, dev, start, blocks, |blocks|)
    ensures disk.Keys == logical.Keys == disk0.Keys == logical0.Keys
    ensures forall i :: 0 <= i < |blocks| ==>
              (dev, blocks[i]) in logical && Seen(logical, (dev, blocks[i])) == Seen(logical0, (dev, start + 1 + i))
    ensures forall k :: k in logical && !(k.0 == dev && k.1 in blocks) ==> logical[k] == logical0[k]
  {
    assert blocks[..|blocks|] == blocks;
  }

  // ---------------------------------------------------------------- the disk images of commit

  ghost predicate OnDisk(disk: map<Key, Block>, dev: nat, len: nat) {
    forall b: nat :: b < len ==> (dev, b) in disk
  }

  /** The blocks of one device. */
  ghost function DiskOf(disk: map<Key, Block>, dev: nat, len: nat): (d: Disk)
    requires OnDisk(disk, dev, len)
    ensures |d| == len
  {
    seq(len, b requires 0 <= b < len => disk[(dev, b)])
  }

  lemma {:induction false} DiskOfSet(disk: map<Key, Block>, dev: nat, len: nat, b: nat, x: Block)
    requires OnDisk(disk, dev, len) && b < len
    ensures OnDisk(disk[(dev, b) := x], dev, len) && DiskOf(disk[(dev, b) := x], dev, len) == DiskOf(disk, dev, len)[b := x]
  {
  }

  /** The pinned blocks of the transaction. */
  ghost function CacheOf(logical: map<Key, Block>, dev: nat, blocks: seq<Word>): (m: map<int, Block>) {
    map b: int | b in blocks && b >= 0 && (dev, b) in logical :: logical[(dev, b)]
  }

  /** What Commit writes: log blocks, header, home blocks, header. */
  datatype Trail = Trail(log: seq<(Key, Block)>, home: seq<(Key, Block)>)

  /** The disk after `k` of these writes. */
  ghost function TrailImage(disk: map<Key, Block>, t: Trail, header: Key, blocks: seq<Word>, k: nat): (r: map<Key, Block>)
    requires |blocks| <= LogImages.LOGSIZE
  {
    if k <= |t.log| then Replay(disk, t.log[..k])
    else
      var d := Replay(disk, t.log);
      if header !in d then d
      else
        var e := Headed(d, header, blocks);
        if k <= |t.log| + 1 + |t.home| then Replay(e, t.home[..k - |t.log| - 1])
        else
          var g := Replay(e, t.home);
          if header !in g then g else Headed(g, header, [])
  }

  lemma {:induction false} BlockOn(lay: LogImages.Layout, disk: map<Key, Block>, dev: nat, len: nat, blocks: seq<Word>, i: nat)
    requires OnDisk(disk, dev, len) && LogImages.Loggable(lay, len, blocks) && i < |blocks|
    ensures (dev, blocks[i]) in disk
  {
    var b: nat := blocks[i];
    assert LogImages.HomeBlock(lay, len, blocks[i]);
    assert (dev, b) in disk;
  }

  lemma {:induction false} CacheAt(logical: map<Key, Block>, dev: nat, blocks: seq<Word>, i: nat)
    requires i < |blocks| && (dev, blocks[i]) in logical
    ensures blocks[i] in CacheOf(logical, dev, blocks) && CacheOf(logical, dev, blocks)[blocks[i]] == logical[(dev, blocks[i])]
  {
  }

  lemma {:induction false} ToLogAt(ws: seq<(Key, Block)>, logical: map<Key, Block>, dev: nat, start: nat, blocks: seq<Word>, i: nat)
    requires ToLog(ws, logical, dev, start, blocks) && i < |ws|
    ensures i < |blocks| && ws[i] == ((dev, start + 1 + i), Seen(logical, (dev, blocks[i])))
  {
  }

  lemma {:induction false} LogImage(lay: LogImages.Layout, disk: map<Key, Block>, logical: map<Key, Block>, dev: nat, len: nat, blocks: seq<Word>, ws: seq<(Key, Block)>, k: nat)
    requires OnDisk(disk, dev, len) && OnDisk(logical, dev, len)
    requires LogImages.Loggable(lay, len, blocks) && LogImages.Fits(lay, DiskOf(disk, dev, len))
    requires |ws| == |blocks| && ToLog(ws, logical, dev, lay.start, blocks) && k <= |blocks|
    ensures var d := Replay(disk, ws[..k]);
            && OnDisk(d, dev, len)
            && DiskOf(d, dev, len) == LogImages.Logged(lay, DiskOf(disk, dev, len), CacheOf(logical, dev, blocks), blocks, k)
    decreases k
  {
    hide OnDisk, LogImages.Logged, DiskOf, CacheOf, ToLog, Replay;
    if k == 0 {
      assert ws[..0] == [];
      NoWrites(disk, logical, dev, lay.start, blocks);
      LoggedNone(lay, DiskOf(disk, dev, len), CacheOf(logical, dev, blocks), blocks);
    } else {
      LogImage(lay, disk, logical, dev, len, blocks, ws, k - 1);
      assert ws[..k] == ws[..k - 1] + [ws[k - 1]];
      ReplayMore(disk, ws[..k - 1], ws[k - 1]);
      ToLogAt(ws, logical, dev, lay.start, blocks, k - 1);
      BlockOn(lay, logical, dev, len, blocks, k - 1);
      CacheAt(logical, dev, blocks, k - 1);
      DiskOfSet(Replay(disk, ws[..k - 1]), dev, len, lay.start + k, ws[k - 1].1);
      LoggedMore(lay, DiskOf(disk, dev, len), CacheOf(logical, dev, blocks), blocks, k);
    }
  }

  lemma {:induction false} LoggedNone(lay: LogImages.Layout, d: Disk, cache: map<int, Block>, blocks: seq<Word>)
    requires LogImages.Fits(lay, d) && LogImages.Loggable(lay, |d|, blocks)
    ensures LogImages.Logged(lay, d, cache, blocks, 0) == d
  {
  }

  lemma {:induction false} LoggedMore(lay: LogImages.Layout, d: Disk, cache: map<int, Block>, blocks: seq<Word>, k: nat)
    requires LogImages.Fits(lay, d) && LogImages.Loggable(lay, |d|, blocks) && 0 < k <= |blocks| && blocks[k - 1] in cache
    ensures LogImages.Logged(lay, d, cache, blocks, k)
            == LogImages.Logged(lay, d, cache, blocks, k - 1)[lay.start + k := cache[blocks[k - 1]]]
  {
  }

  lemma {:induction false} InstalledMore(lay: LogImages.Layout, d: Disk, blocks: seq<Word>, k: nat)
    requires LogImages.Fits(lay, d) && LogImages.Loggable(lay, |d|, blocks) && 0 < k <= |blocks|
    ensures LogImages.Installed(lay, d, blocks, k) == LogImages.Installed(lay, d, blocks, k - 1)[blocks[k - 1] := d[lay.start + k]]
  {
    assert LogImages.InLog(lay, lay.start + k);
  }

  lemma {:induction false} ToHomeAt(ws: seq<(Key, Block)>, logical: map<Key, Block>, dev: nat, start: nat, blocks: seq<Word>, i: nat)
    requires ToHome(ws, logical, dev, start, blocks) && i < |ws|
    ensures i < |blocks| && ws[i] == ((dev, blocks[i]), Seen(logical, (dev, start + 1 + i)))
  {
  }

  lemma {:induction false} DiskOfAt(disk: map<Key, Block>, dev: nat, len: nat, b: nat)
    requires OnDisk(disk, dev, len) && b < len
    ensures (dev, b) in disk && DiskOf(disk, dev, len)[b] == disk[(dev, b)]
  {
  }

  /** From the header on. */
  lemma {:induction false} HomeImage(lay: LogImages.Layout, disk: map<Key, Block>, dev: nat, len: nat, blocks: seq<Word>, ws: seq<(Key, Block)>, k: nat)
    requires OnDisk(disk, dev, len) && LogImages.Loggable(lay, len, blocks) && LogImages.Fits(lay, DiskOf(disk, dev, len))
    requires |ws| == |blocks| && ToHome(ws, disk, dev, lay.start, blocks) && k <= |blocks|
    ensures var d := Replay(disk, ws[..k]);
            OnDisk(d, dev, len) && DiskOf(d, dev, len) == LogImages.Installed(lay, DiskOf(disk, dev, len), blocks, k)
    decreases k
  {
    hide OnDisk, DiskOf, LogImages.Installed, ToHome, Replay;
    if k == 0 {
      assert ws[..0] == [];
      NoWrites(disk, disk, dev, lay.start, blocks);
    } else {
      HomeImage(lay, disk, dev, len, blocks, ws, k - 1);
      assert ws[..k] == ws[..k - 1] + [ws[k - 1]];
      ReplayMore(disk, ws[..k - 1], ws[k - 1]);
      ToHomeAt(ws, disk, dev, lay.start, blocks, k - 1);
      DiskOfAt(disk, dev, len, lay.start + k);
      DiskOfSet(Replay(disk, ws[..k - 1]), dev, len, blocks[k - 1], ws[k - 1].1);
      InstalledMore(lay, DiskOf(disk, dev, len), blocks, k);
    }
  }

  lemma {:induction false} HeadImage(disk: map<Key, Block>, dev: nat, len: nat, lay: LogImages.Layout, blocks: seq<Word>)
    requires OnDisk(disk, dev, len) && LogImages.Fits(lay, DiskOf(disk, dev, len)) && |blocks| <= LogImages.LOGSIZE
    ensures (dev, lay.start) in disk
    ensures var d := Headed(disk, (dev, lay.start), blocks);
            OnDisk(d, dev, len) && DiskOf(d, dev, len) == LogImages.WithHeader(lay, DiskOf(disk, dev, len), blocks)
  {
    DiskOfAt(disk, dev, len, lay.start);
    hide LogImages.StoreHeader;
    DiskOfSet(disk, dev, len, lay.start, LogImages.StoreHeader(disk[(dev, lay.start)], blocks));
  }

  /** The writes of commit() on a device: `t` is what a commit of `blocks` makes, seen from disk and cache. */
  ghost predicate Commits(lay: LogImages.Layout, disk: map<Key, Block>, logical: map<Key, Block>, dev: nat, len: nat, blocks: seq<Word>, t: Trail) {
    && OnDisk(disk, dev, len) && OnDisk(logical, dev, len) && LogImages.Loggable(lay, len, blocks) && lay.start + lay.size <= len
    && |t.log| == |t.home| == |blocks| && ToLog(t.log, logical, dev, lay.start, blocks)
    && forall i :: 0 <= i < |blocks| ==> t.home[i] == ((dev, blocks[i]), t.log[i].1)
  }

  lemma {:induction false} CommitsFit(lay: LogImages.Layout, disk: map<Key, Block>, logical: map<Key, Block>, dev: nat, len: nat, blocks: seq<Word>, t: Trail)
    requires Commits(lay, disk, logical, dev, len, blocks, t)
    ensures OnDisk(disk, dev, len) && OnDisk(logical, dev, len) && LogImages.Loggable(lay, len, blocks)
    ensures LogImages.Fits(lay, DiskOf(disk, dev, len)) && |blocks| <= LogImages.LOGSIZE
    ensures |t.log| == |t.home| == |blocks| && ToLog(t.log, logical, dev, lay.start, blocks)
  {
    hide ToLog, OnDisk;
  }

  /** Every disk image is the one the log's own model has for that write. */
  lemma {:induction false} TrailIsCommit(lay: LogImages.Layout, disk: map<Key, Block>, logical: map<Key, Block>, dev: nat, len: nat, blocks: seq<Word>, t: Trail, k: nat)
    requires Commits(lay, disk, logical, dev, len, blocks, t) && k <= LogImages.CommitWrites(|blocks|)
    ensures OnDisk(disk, dev, len) && LogImages.Loggable(lay, len, blocks) && LogImages.Fits(lay, DiskOf(disk, dev, len))
    ensures var d := TrailImage(disk, t, (dev, lay.start), blocks, k);
            && OnDisk(d, dev, len)
            && DiskOf(d, dev, len) == LogImages.CommitImage(lay, DiskOf(disk, dev, len), CacheOf(logical, dev, blocks), blocks, k)
  {
    hide Commits, OnDisk, DiskOf, CacheOf, Replay, ToLog, Headed, LogImages.Logged, LogImages.Installed, LogImages.WithHeader, LogImages.Loggable;
    CommitsFit(lay, disk, logical, dev, len, blocks, t);
    var n := |blocks|;
    if k <= n {
      LogImage(lay, disk, logical, dev, len, blocks, t.log, k);
      return;
    }
    assert t.log[..n] == t.log && t.home[..n] == t.home;
    LogImage(lay, disk, logical, dev, len, blocks, t.log, n);
    var d := Replay(disk, t.log);
    HeadImage(d, dev, len, lay, blocks);
    var e := Headed(d, (dev, lay.start), blocks);
    TailImage(lay, disk, logical, dev, len, blocks, t, e, if k <= 2 * n + 1 then k - n - 1 else n);
    if k == 2 * n + 2 {
      HeadImage(Replay(e, t.home), dev, len, lay, []);
    }
  }

  lemma {:induction false} TailImage(lay: LogImages.Layout, disk: map<Key, Block>, logical: map<Key, Block>, dev: nat, len: nat, blocks: seq<Word>, t: Trail, e: map<Key, Block>, j: nat)
    requires Commits(lay, disk, logical, dev, len, blocks, t) && j <= |blocks| && OnDisk(e, dev, len)
    requires DiskOf(e, dev, len) == LogImages.WithHeader(lay, LogImages.Logged(lay, DiskOf(disk, dev, len), CacheOf(logical, dev, blocks), blocks, |blocks|), blocks)
    ensures LogImages.Loggable(lay, len, blocks) && LogImages.Fits(lay, DiskOf(e, dev, len))
    ensures var d := Replay(e, t.home[..j]);
            && OnDisk(d, dev, len)
            && DiskOf(d, dev, len) == LogImages.Installed(lay, DiskOf(e, dev, len), blocks, j)
  {
    hide OnDisk, DiskOf, CacheOf, Replay, ToLog, LogImages.Logged, LogImages.Installed, LogImages.WithHeader, LogImages.Loggable, Commits, Seen;
    CommitsFit(lay, disk, logical, dev, len, blocks, t);
    forall i | 0 <= i < |blocks|
      ensures t.home[i] == ((dev, blocks[i]), Seen(e, (dev, lay.start + 1 + i)))
    {
      TailAt(lay, disk, logical, dev, len, blocks, t, e, i);
    }
    HomeImage(lay, e, dev, len, blocks, t.home, j);
  }

  lemma {:induction false} TailAt(lay: LogImages.Layout, disk: map<Key, Block>, logical: map<Key, Block>, dev: nat, len: nat, blocks: seq<Word>, t: Trail, e: map<Key, Block>, i: nat)
    requires Commits(lay, disk, logical, dev, len, blocks, t) && i < |blocks| && OnDisk(e, dev, len)
    requires DiskOf(e, dev, len) == LogImages.WithHeader(lay, LogImages.Logged(lay, DiskOf(disk, dev, len), CacheOf(logical, dev, blocks), blocks, |blocks|), blocks)
    ensures t.home[i] == ((dev, blocks[i]), Seen(e, (dev, lay.start + 1 + i)))
  {
    hide OnDisk, DiskOf, CacheOf, ToLog, LogImages.Logged, LogImages.StoreHeader, LogImages.Loggable;
    ToLogAt(t.log, logical, dev, lay.start, blocks, i);
    BlockOn(lay, logical, dev, len, blocks, i);
    CacheAt(logical, dev, blocks, i);
    BelowLog(lay, len, blocks, i);
    DiskOfAt(e, dev, len, lay.start + 1 + i);
  }

  lemma {:induction false} BelowLog(lay: LogImages.Layout, len: nat, blocks: seq<Word>, i: nat)
    requires LogImages.Loggable(lay, len, blocks) && i < |blocks|
    ensures i + 1 < lay.size
  {
  }

  /** After any of the writes of a commit, recovery gives all home blocks as they were on disk, or, from the
      header on, all of them as the kernel saw them. */
  ghost predicate CrashAtomic(lay: LogImages.Layout, disk: map<Key, Block>, logical: map<Key, Block>, dev: nat, len: nat, blocks: seq<Word>, t: Trail)
    requires OnDisk(disk, dev, len) && OnDisk(logical, dev, len) && |blocks| <= LogImages.LOGSIZE
  {
    forall k :: 0 <= k <= LogImages.CommitWrites(|blocks|) ==>
      var d := TrailImage(disk, t, (dev, lay.start), blocks, k);
      && OnDisk(d, dev, len) && LogImages.Recoverable(lay, DiskOf(d, dev, len))
      && LogImages.Home(lay, LogImages.Recover(lay, DiskOf(d, dev, len)))
         == LogImages.Home(lay, DiskOf(if k <= |blocks| then disk else logical, dev, len))
  }

  lemma {:induction false} NewHomeIs(lay: LogImages.Layout, disk: map<Key, Block>, logical: map<Key, Block>, dev: nat, len: nat, blocks: seq<Word>)
    requires OnDisk(disk, dev, len) && OnDisk(logical, dev, len)
    requires forall b: nat :: b < len && b !in blocks ==> disk[(dev, b)] == logical[(dev, b)]
    ensures LogImages.NewHome(lay, DiskOf(disk, dev, len), CacheOf(logical, dev, blocks), blocks) == LogImages.Home(lay, DiskOf(logical, dev, len))
  {
    var d, e, cache := DiskOf(disk, dev, len), DiskOf(logical, dev, len), CacheOf(logical, dev, blocks);
    var h, g := LogImages.NewHome(lay, d, cache, blocks), LogImages.Home(lay, e);
    forall b: int | b in g
      ensures h[b] == g[b]
    {
      DiskOfAt(disk, dev, len, b);
      DiskOfAt(logical, dev, len, b);
    }
    assert h.Keys == g.Keys;
  }

  lemma {:induction false} CommitIsAtomic(lay: LogImages.Layout, disk: map<Key, Block>, logical: map<Key, Block>, dev: nat, len: nat, blocks: seq<Word>, t: Trail)
    requires Commits(lay, disk, logical, dev, len, blocks, t) && LogImages.LogEmpty(lay, DiskOf(disk, dev, len))
    requires forall b: nat :: b < len && b !in blocks ==> disk[(dev, b)] == logical[(dev, b)]
    ensures CrashAtomic(lay, disk, logical, dev, len, blocks, t)
  {
    hide DiskOf, CacheOf, OnDisk, Commits, LogImages.Loggable, LogImages.Fits,
      LogImages.Recover, LogImages.NewHome, LogImages.Home, LogImages.CommitImage, TrailImage, LogImages.Recoverable, LogImages.LogEmpty;
    CommitsFit(lay, disk, logical, dev, len, blocks, t);
    var d0, cache := DiskOf(disk, dev, len), CacheOf(logical, dev, blocks);
    NewHomeIs(lay, disk, logical, dev, len, blocks);
    forall k | 0 <= k <= LogImages.CommitWrites(|blocks|)
      ensures var d := TrailImage(disk, t, (dev, lay.start), blocks, k);
              && OnDisk(d, dev, len) && LogImages.Recoverable(lay, DiskOf(d, dev, len))
              && LogImages.Home(lay, LogImages.Recover(lay, DiskOf(d, dev, len)))
                 == LogImages.Home(lay, DiskOf(if k <= |blocks| then disk else logical, dev, len))
    {
      TrailIsCommit(lay, disk, logical, dev, len, blocks, t, k);
      LogImages.CommitAtomic(lay, d0, cache, blocks, k);
    }
  }

  /** commit() on the cache. As long as fewer than NBUF blocks are pinned, and all of them by this
      transaction, no bread runs out of buffers; the disk goes through exactly the images of a commit of the
      log; afterwards it holds every home block as the kernel sees it, the log on disk is empty and nothing is
      pinned. Nothing happens if the transaction is empty. */
  method Commit(c: Cache, dev: nat, lay: LogImages.Layout, ghost len: nat, blocks: seq<Word>) returns (ghost t: Trail)
    requires c.Valid() && AllReleased(c.buf[..]) && |blocks| < NBUF && c.disk.Keys == c.logical.Keys
    requires Transaction(c.buf[..], c.disk, dev, lay.start, blocks)
    requires OnDisk(c.disk, dev, len) && LogImages.Loggable(lay, len, blocks) && lay.start + lay.size <= len
    requires forall k: Key :: Pinned(c.buf[..], k) ==> k.0 == dev && k.1 in blocks
    modifies c, c.buf, c.next, c.prev
    ensures Ready(c) && c.disk.Keys == old(c.disk.Keys)
    ensures forall k: Key :: !Pinned(c.buf[..], k)
    ensures forall k :: k in c.disk && !InLog(k, dev, lay.start, |blocks|) ==> c.disk[k] == old(c.logical)[k]
    ensures blocks != [] ==> (dev, lay.start) in c.disk && HeaderIs(c.disk[(dev, lay.start)], [])
    ensures Commits(lay, old(c.disk), old(c.logical), dev, len, blocks, t)
    ensures c.disk == TrailImage(old(c.disk), t, (dev, lay.start), blocks, LogImages.CommitWrites(|blocks|))
    ensures LogImages.LogEmpty(lay, DiskOf(old(c.disk), dev, len)) ==>
              CrashAtomic(lay, old(c.disk), old(c.logical), dev, len, blocks, t)
  {
    hide Pinned, Ready, Coherent, HeaderIs, Replay, OnDisk, Commits, CrashAtomic, LogImages.Loggable, LogImages.LogEmpty, DiskOf, TrailImage;
    ghost var disk, logical := c.disk, c.logical;
    RoomForCommit(c, dev, blocks);
    ReadyCoherent(c);
    SeenOnDisk(c.buf[..], disk, logical, dev, len, blocks);
    if blocks == [] {
      t := Trail([], []);
      EmptyCommit(lay, disk, logical, dev, len);
      AtomicIf(lay, disk, logical, dev, len, blocks, t);
      forall k | k in c.disk
        ensures c.disk[k] == old(c.logical)[k]
      {
        NothingPinned(c.buf[..], c.disk, c.logical, k);
      }
      return;
    }
    t := CommitSome(c, dev, lay, len, blocks);
    AtomicIf(lay, disk, logical, dev, len, blocks, t);
  }

  /** commit() of a transaction that is not empty. */
  method CommitSome(c: Cache, dev: nat, lay: LogImages.Layout, ghost len: nat, blocks: seq<Word>) returns (ghost t: Trail)
    requires Ready(c) && 0 < |blocks| <= LogImages.LOGSIZE && c.disk.Keys == c.logical.Keys
    requires Transaction(c.buf[..], c.disk, dev, lay.start, blocks)
    requires OnDisk(c.disk, dev, len) && OnDisk(c.logical, dev, len) && LogImages.Loggable(lay, len, blocks) && lay.start + lay.size <= len
    requires forall k: Key :: Pinned(c.buf[..], k) ==> k.0 == dev && k.1 in blocks
    modifies c, c.buf, c.next, c.prev
    ensures Ready(c) && c.disk.Keys == old(c.disk.Keys)
    ensures forall k: Key :: !Pinned(c.buf[..], k)
    ensures forall k :: k in c.disk && !InLog(k, dev, lay.start, |blocks|) ==> k in old(c.logical) && c.disk[k] == old(c.logical)[k]
    ensures (dev, lay.start) in c.disk && HeaderIs(c.disk[(dev, lay.start)], [])
    ensures Commits(lay, old(c.disk), old(c.logical), dev, len, blocks, t)
    ensures c.disk == TrailImage(old(c.disk), t, (dev, lay.start), blocks, LogImages.CommitWrites(|blocks|))
  {
    hide Pinned, Ready, Coherent, HeaderIs, Replay, ToLog, ToHome, OnDisk, Commits, LogImages.Loggable, LogSoFar, TrailImage, Transaction, LogImages.StoreHeader, Seen;
    ghost var disk, logical, bufs := c.disk, c.logical, c.buf[..];
    ghost var w1 := LogAndHead(c, dev, lay.start, blocks);
    ghost var logged, disk1 := c.logical, c.disk;
    LogKeys(disk, logical, disk1, logged, dev, lay.start, blocks);
    StillTransaction(bufs, disk, c.buf[..], disk1, dev, lay.start, blocks);
    ghost var w2 := InstallAndClear(c, dev, lay.start, blocks);
    t := Trail(w1, w2);
    CommitsBack(lay, disk, logical, disk1, logged, c.logical, dev, len, blocks, w1, w2);
    TrailEnd(disk, t, (dev, lay.start), blocks);
    ReadyCoherent(c);
    forall k | k in c.disk && !InLog(k, dev, lay.start, |blocks|)
      ensures k in logical && c.disk[k] == logical[k]
    {
      NothingPinned(c.buf[..], c.disk, c.logical, k);
    }
  }

  lemma {:induction false} CommitsBack(lay: LogImages.Layout, disk: map<Key, Block>, logical: map<Key, Block>, disk1: map<Key, Block>, logged: map<Key, Block>, last: map<Key, Block>,
                                       dev: nat, len: nat, blocks: seq<Word>, w1: seq<(Key, Block)>, w2: seq<(Key, Block)>)
    requires LogSoFar(disk, logical, disk1, logged, dev, lay.start, blocks, |blocks|) && last.Keys == logged.Keys
    requires OnDisk(disk, dev, len) && OnDisk(logical, dev, len) && LogImages.Loggable(lay, len, blocks) && lay.start + lay.size <= len
    requires |w1| == |w2| == |blocks| && ToLog(w1, logical, dev, lay.start, blocks) && ToHome(w2, logged, dev, lay.start, blocks)
    requires forall i :: 0 <= i < |blocks| ==> (dev, blocks[i]) in last && Seen(last, (dev, blocks[i])) == Seen(logged, (dev, lay.start + 1 + i))
    requires forall k :: k in last && k != (dev, lay.start) && !(k.0 == dev && k.1 in blocks) ==> last[k] == logged[k]
    ensures Commits(lay, disk, logical, dev, len, blocks, Trail(w1, w2))
    ensures forall k :: k in last && !InLog(k, dev, lay.start, |blocks|) ==> k in logical && last[k] == logical[k]
  {
    hide ToLog, ToHome, LogImages.Loggable, OnDisk, LogSoFar, Commits;
    LogKeys(disk, logical, disk1, logged, dev, lay.start, blocks);
    LogReads(disk, logical, disk1, logged, dev, lay.start, blocks);
    CommitsAre(lay, disk, logical, logged, dev, len, blocks, w1, w2);
    AllBack(logical, logged, last, dev, lay.start, blocks);
  }

  /** After both halves of commit() every home block is as the kernel saw it. */
  lemma {:induction false} AllBack(l0: map<Key, Block>, l1: map<Key, Block>, l2: map<Key, Block>, dev: nat, start: nat, blocks: seq<Word>)
    requires l0.Keys == l1.Keys == l2.Keys
    requires forall b: nat :: start < b <= start + |blocks| ==> (dev, b) in l1
    requires forall i :: 0 <= i < |blocks| ==> (dev, blocks[i]) in l0
    requires forall i :: 0 <= i < |blocks| ==> l1[(dev, start + 1 + i)] == l0[(dev, blocks[i])]
    requires forall k :: k in l1 && !InLog(k, dev, start, |blocks|) ==> l1[k] == l0[k]
    requires forall i :: 0 <= i < |blocks| ==> l2[(dev, blocks[i])] == l1[(dev, start + 1 + i)]
    requires forall k :: k in l2 && k != (dev, start) && !(k.0 == dev && k.1 in blocks) ==> l2[k] == l1[k]
    ensures forall k :: k in l2 && !InLog(k, dev, start, |blocks|) ==> l2[k] == l0[k]
  {
    forall k | k in l2 && !InLog(k, dev, start, |blocks|)
      ensures l2[k] == l0[k]
    {
      ThroughTheLog(l0, l1, l2, dev, start, blocks, k);
    }
  }

  lemma {:induction false} StillTransaction(bufs: seq<Buf>, disk: map<Key, Block>, bufs': seq<Buf>, disk': map<Key, Block>, dev: nat, start: nat, blocks: seq<Word>)
    requires Transaction(bufs, disk, dev, start, blocks) && disk'.Keys == disk.Keys
    requires forall k: Key :: Pinned(bufs', k) <==> Pinned(bufs, k)
    ensures Transaction(bufs', disk', dev, start, blocks)
  {
    hide Pinned;
  }

  /** What the first half of commit() leaves. */
  lemma {:induction false} LogReads(disk0: map<Key, Block>, logical0: map<Key, Block>, disk: map<Key, Block>, logical: map<Key, Block>,
                                    dev: nat, start: nat, blocks: seq<Word>)
    requires LogSoFar(disk0, logical0, disk, logical, dev, start, blocks, |blocks|)
    ensures forall b: nat :: start < b <= start + |blocks| ==> (dev, b) in logical
    ensures forall i :: 0 <= i < |blocks| ==> (dev, blocks[i]) in logical0
    ensures forall i :: 0 <= i < |blocks| ==> logical[(dev, start + 1 + i)] == logical0[(dev, blocks[i])]
    ensures forall i :: 0 <= i < |blocks| ==> Seen(logical, (dev, start + 1 + i)) == Seen(logical0, (dev, blocks[i]))
    ensures forall k :: k in logical && !InLog(k, dev, start, |blocks|) ==> logical[k] == logical0[k]
  {
  }

  /** Outside the transaction, disk and cache agree. */
  lemma {:induction false} SeenOnDisk(bufs: seq<Buf>, disk: map<Key, Block>, logical: map<Key, Block>, dev: nat, len: nat, blocks: seq<Word>)
    requires Coherent(bufs, disk, logical) && OnDisk(disk, dev, len) && disk.Keys == logical.Keys
    requires forall k: Key :: Pinned(bufs, k) ==> k.0 == dev && k.1 in blocks
    ensures OnDisk(logical, dev, len) && forall b: nat :: b < len && b !in blocks ==> disk[(dev, b)] == logical[(dev, b)]
  {
    hide Coherent, Pinned;
    forall b: nat | b < len && b !in blocks
      ensures disk[(dev, b)] == logical[(dev, b)]
    {
      NothingPinned(bufs, disk, logical, (dev, b));
    }
  }

  lemma {:induction false} EmptyCommit(lay: LogImages.Layout, disk: map<Key, Block>, logical: map<Key, Block>, dev: nat, len: nat)
    requires OnDisk(disk, dev, len) && OnDisk(logical, dev, len) && LogImages.Loggable(lay, len, []) && lay.start + lay.size <= len
    ensures Commits(lay, disk, logical, dev, len, [], Trail([], []))
    ensures TrailImage(disk, Trail([], []), (dev, lay.start), [], LogImages.CommitWrites(0)) == disk
  {
    var none: seq<(Key, Block)> := [];
    assert none[..0] == [];
  }

  lemma {:induction false} CommitsAre(lay: LogImages.Layout, disk: map<Key, Block>, logical: map<Key, Block>, logged: map<Key, Block>,
                                      dev: nat, len: nat, blocks: seq<Word>, w1: seq<(Key, Block)>, w2: seq<(Key, Block)>)
    requires OnDisk(disk, dev, len) && OnDisk(logical, dev, len) && LogImages.Loggable(lay, len, blocks) && lay.start + lay.size <= len
    requires |w1| == |w2| == |blocks| && ToLog(w1, logical, dev, lay.start, blocks) && ToHome(w2, logged, dev, lay.start, blocks)
    requires forall i :: 0 <= i < |blocks| ==> Seen(logged, (dev, lay.start + 1 + i)) == Seen(logical, (dev, blocks[i]))
    ensures Commits(lay, disk, logical, dev, len, blocks, Trail(w1, w2))
  {
    hide LogImages.Loggable, OnDisk;
  }

  lemma {:induction false} TrailEnd(disk: map<Key, Block>, t: Trail, header: Key, blocks: seq<Word>)
    requires 0 < |blocks| <= LogImages.LOGSIZE && |t.log| == |t.home| == |blocks| && header in Replay(disk, t.log)
    requires header in Replay(Headed(Replay(disk, t.log), header, blocks), t.home)
    ensures TrailImage(disk, t, header, blocks, LogImages.CommitWrites(|blocks|))
            == Headed(Replay(Headed(Replay(disk, t.log), header, blocks), t.home), header, [])
  {
    hide Replay, Headed;
  }

  lemma {:induction false} AtomicIf(lay: LogImages.Layout, disk: map<Key, Block>, logical: map<Key, Block>, dev: nat, len: nat, blocks: seq<Word>, t: Trail)
    requires Commits(lay, disk, logical, dev, len, blocks, t)
    requires forall b: nat :: b < len && b !in blocks && (dev, b) in disk && (dev, b) in logical ==> disk[(dev, b)] == logical[(dev, b)]
    ensures OnDisk(disk, dev, len) && OnDisk(logical, dev, len) && |blocks| <= LogImages.LOGSIZE
    ensures LogImages.LogEmpty(lay, DiskOf(disk, dev, len)) ==> CrashAtomic(lay, disk, logical, dev, len, blocks, t)
  {
    hide CrashAtomic, LogImages.LogEmpty;
    if LogImages.LogEmpty(lay, DiskOf(disk, dev, len)) {
      CommitIsAtomic(lay, disk, logical, dev, len, blocks, t);
    }
  }

  /** A block copied to the log and back is what it was. */
  lemma {:induction false} ThroughTheLog(l0: map<Key, Block>, l1: map<Key, Block>, l2: map<Key, Block>,
                                         dev: nat, start: nat, blocks: seq<Word>, k: Key)
    requires l0.Keys == l1.Keys == l2.Keys && k in l0 && !InLog(k, dev, start, |blocks|)
    requires forall b: nat :: start < b <= start + |blocks| ==> (dev, b) in l1
    requires forall i :: 0 <= i < |blocks| ==> (dev, blocks[i]) in l0
    requires forall i :: 0 <= i < |blocks| ==> l1[(dev, start + 1 + i)] == l0[(dev, blocks[i])]
    requires l1[k] == l0[k]
    requires forall i :: 0 <= i < |blocks| ==> l2[(dev, blocks[i])] == l1[(dev, start + 1 + i)]
    requires !(k.0 == dev && k.1 in blocks) ==> l2[k] == l1[k]
    ensures l2[k] == l0[k]
  {
    if k.0 == dev && k.1 in blocks {
      var i :| 0 <= i < |blocks| && blocks[i] == k.1;
      assert k == (dev, blocks[i]);
    }
  }

  lemma {:induction false} ReadyCoherent(c: Cache)
    requires Ready(c)
    ensures Coherent(c.buf[..], c.disk, c.logical)
  {
  }
}
