/** The circular doubly linked list through the buffers of bio.c. `ring` lists the members in
    `next` order, starting with the head sentinel. */
module BufferList {

  /** Position after `i` on a ring of `n` members. */
  function After(i: int, n: int): (j: int) {
    if i + 1 == n then 0 else i + 1
  }

  ghost predicate IsRing(ring: seq<nat>, len: nat) {
    && |ring| > 0
    && (forall i :: 0 <= i < |ring| ==> ring[i] < len)
    && (forall i, j :: 0 <= i < j < |ring| ==> ring[i] != ring[j])
  }

  /** `nx` and `pv` link the members of `ring` in order, both ways round. */
  ghost predicate Linked(nx: seq<nat>, pv: seq<nat>, ring: seq<nat>) {
    && |nx| == |pv| && IsRing(ring, |nx|)
    && forall i :: 0 <= i < |ring| ==>
         nx[ring[i]] == ring[After(i, |ring|)] && pv[ring[After(i, |ring|)]] == ring[i]
  }

  /** A list of `n` different members below `n` has them all. */
  lemma {:induction false} AllListed(order: seq<nat>, m: nat)
    requires forall i :: 0 <= i < |order| ==> order[i] < |order|
    requires forall i, j :: 0 <= i < j < |order| ==> order[i] != order[j]
    requires m < |order|
    ensures m in order
  {
    var n := |order| - 1;
    if n in order {
      var p :| 0 <= p <= n && order[p] == n;
      var rest := order[..p] + order[p + 1..];
      if m != n {
        AllListed(rest, m);
      }
    } else {
      AllListed(order[..n], order[n]);
    }
  }

  /** Unlinking a member leaves the others linked in the same order. */
  lemma {:induction false} Unlink(nx: seq<nat>, pv: seq<nat>, ring: seq<nat>, k: nat)
    requires Linked(nx, pv, ring) && 0 < k < |ring|
    ensures var b := ring[k];
            nx[b] < |nx| && pv[b] < |nx| && nx[b] != b && pv[b] != b &&
            Linked(nx[pv[b] := nx[b]], pv[nx[b] := pv[b]], ring[..k] + ring[k + 1..])
  {
    var b := ring[k];
    var n := |ring|;
    assert After(k - 1, n) == k;
    assert pv[b] == ring[k - 1] && nx[b] == ring[After(k, n)];
    var r := ring[..k] + ring[k + 1..];
    var nx', pv' := nx[pv[b] := nx[b]], pv[nx[b] := pv[b]];
    forall i | 0 <= i < |r|
      ensures nx'[r[i]] == r[After(i, |r|)] && pv'[r[After(i, |r|)]] == r[i]
    {
      var i0 := if i < k then i else i + 1;
      assert r[i] == ring[i0];
      assert After(i0, n) == k || r[After(i, |r|)] == ring[After(i0, n)];
    }
  }

  /** Linking a new member right after the head. */
  lemma {:induction false} PushFront(nx: seq<nat>, pv: seq<nat>, ring: seq<nat>, b: nat)
    requires Linked(nx, pv, ring) && b < |nx| && b !in ring
    ensures var h := ring[0];
            nx[h] < |nx| &&
            Linked(nx[b := nx[h]][h := b], pv[b := h][nx[h] := b], [h, b] + ring[1..])
  {
    var h := ring[0];
    var n := |ring|;
    var r := [h, b] + ring[1..];
    var nx', pv' := nx[b := nx[h]][h := b], pv[b := h][nx[h] := b];
    assert nx[h] == ring[After(0, n)];
    forall i | 0 <= i < |r|
      ensures nx'[r[i]] == r[After(i, |r|)] && pv'[r[After(i, |r|)]] == r[i]
    {
      if i >= 2 {
        assert r[i] == ring[i - 1];
        assert After(i - 1, n) == 0 || r[i + 1] == ring[i];
      }
    }
  }
}

/** bio.c: the cache of NBUF disk blocks on that list. */
module BufferCache {
  import opened Options
  import opened Blocks
  import opened BufferList

  const NBUF := 30
  const HEAD: nat := NBUF  // the list index of bcache.head

  /** (dev, blockno) */
  type Key = (nat, nat)

  datatype Buf = Buf(key: Key, valid: bool, dirty: bool, refcnt: nat, data: Block)

  predicate Busy(b: Buf) {
    b.refcnt != 0 || b.dirty
  }

  /** What the buffers hold. `disk` is the disk; `logical` is the disk as the kernel sees it,
      overlaid with the modified blocks that only the cache has so far. Device 0 marks a buffer
      that has never been used. */
  ghost predicate Coherent(bufs: seq<Buf>, disk: map<Key, Block>, logical: map<Key, Block>) {
    && logical.Keys == disk.Keys
    && (forall i :: 0 <= i < |bufs| ==> FitsDisk(bufs[i], disk, logical))
    && (forall i, j :: 0 <= i < j < |bufs| && bufs[i].key.0 != 0 ==> bufs[i].key != bufs[j].key)
    && (forall k :: k in disk && disk[k] != logical[k] ==> Pinned(bufs, k))
  }

  ghost predicate FitsDisk(b: Buf, disk: map<Key, Block>, logical: map<Key, Block>) {
    && (b.key.0 == 0 ==> !b.valid && !b.dirty && b.refcnt == 0)
    && (b.key.0 != 0 ==> b.key in disk && b.key in logical)
    && (b.dirty ==> b.valid)
    && (b.valid ==> b.data == logical[b.key])
    && (b.valid && !b.dirty ==> b.data == disk[b.key])
  }

  /** A modified copy of block `k` is in the cache. */
  ghost predicate Pinned(bufs: seq<Buf>, k: Key) {
    exists i :: 0 <= i < |bufs| && bufs[i].key == k && bufs[i].dirty
  }

  ghost predicate Cached(bufs: seq<Buf>, k: Key) {
    exists i :: 0 <= i < |bufs| && bufs[i].key == k
  }

  /** Changing one buffer's reference count. */
  lemma {:induction false} CoherentRef(bufs: seq<Buf>, disk: map<Key, Block>, logical: map<Key, Block>, i: nat, r: nat)
    requires Coherent(bufs, disk, logical) && i < |bufs| && bufs[i].key.0 != 0
    ensures Coherent(bufs[i := bufs[i].(refcnt := r)], disk, logical)
  {
    var k := bufs[i].key;
    assert disk == disk[k := disk[k]] && logical == logical[k := logical[k]];
    CoherentUpdate(bufs, disk, logical, i, bufs[i].(refcnt := r), disk[k], logical[k]);
  }

  /** Replacing buffer `i`, and possibly its block on the disk, keeps the cache coherent. */
  lemma {:induction false} CoherentUpdate(bufs: seq<Buf>, disk: map<Key, Block>, logical: map<Key, Block>,
                                          i: nat, b: Buf, stored: Block, seen: Block)
    requires Coherent(bufs, disk, logical) && i < |bufs| && b.key.0 != 0 && b.key in disk
    requires FitsDisk(b, disk[b.key := stored], logical[b.key := seen])
    requires b.dirty || stored == seen
    requires b.key == bufs[i].key || (!bufs[i].dirty && !Cached(bufs, b.key))
    ensures Coherent(bufs[i := b], disk[b.key := stored], logical[b.key := seen])
  {
    var disk', logical' := disk[b.key := stored], logical[b.key := seen];
    var bufs' := bufs[i := b];
    assert logical'.Keys == disk'.Keys;
    forall j | 0 <= j < |bufs|
      ensures FitsDisk(bufs'[j], disk', logical')
    {
      assert j != i ==> bufs[j].key != b.key;
    }
    forall k | k in disk' && disk'[k] != logical'[k]
      ensures Pinned(bufs', k)
    {
      if k == b.key {
        assert bufs'[i].key == k;
      } else {
        assert Pinned(bufs, k);
        var j :| 0 <= j < |bufs| && bufs[j].key == k && bufs[j].dirty;
        assert j != i;
        assert bufs'[j].dirty;
      }
    }
  }

  /** Giving a free buffer to a block that is not cached. */
  lemma {:induction false} CoherentRecycle(bufs: seq<Buf>, disk: map<Key, Block>, logical: map<Key, Block>, i: nat, b: Buf)
    requires Coherent(bufs, disk, logical) && i < |bufs| && !Busy(bufs[i])
    requires b.key.0 != 0 && b.key in disk && !Cached(bufs, b.key) && !b.valid && !b.dirty
    ensures Coherent(bufs[i := b], disk, logical)
  {
    assert Pinned(bufs, b.key) ==> Cached(bufs, b.key);
    assert disk == disk[b.key := disk[b.key]] && logical == logical[b.key := logical[b.key]];
    CoherentUpdate(bufs, disk, logical, i, b, disk[b.key], logical[b.key]);
  }

  lemma {:induction false} CoherentAt(bufs: seq<Buf>, disk: map<Key, Block>, logical: map<Key, Block>, i: nat)
    requires Coherent(bufs, disk, logical) && i < |bufs|
    ensures FitsDisk(bufs[i], disk, logical)
    ensures bufs[i].key.0 != 0 && !bufs[i].dirty ==> logical[bufs[i].key] == disk[bufs[i].key]
  {
  }

  /** Reading a buffer's block from the disk. */
  lemma {:induction false} CoherentLoad(bufs: seq<Buf>, disk: map<Key, Block>, logical: map<Key, Block>, i: nat)
    requires Coherent(bufs, disk, logical) && i < |bufs| && bufs[i].key.0 != 0 && bufs[i].key in disk && !bufs[i].dirty
    ensures Coherent(bufs[i := bufs[i].(data := disk[bufs[i].key], valid := true)], disk, logical)
  {
    hide Coherent;
    var k := bufs[i].key;
    CoherentAt(bufs, disk, logical, i);
    assert disk == disk[k := disk[k]] && logical == logical[k := logical[k]];
    CoherentUpdate(bufs, disk, logical, i, bufs[i].(data := disk[k], valid := true), disk[k], logical[k]);
  }

  /** Writing a buffer through to the disk. */
  lemma {:induction false} CoherentStore(bufs: seq<Buf>, disk: map<Key, Block>, logical: map<Key, Block>, i: nat, data: Block)
    requires Coherent(bufs, disk, logical) && i < |bufs| && bufs[i].key.0 != 0
    ensures Coherent(bufs[i := bufs[i].(data := data, valid := true, dirty := false)],
                     disk[bufs[i].key := data], logical[bufs[i].key := data])
  {
    CoherentUpdate(bufs, disk, logical, i, bufs[i].(data := data, valid := true, dirty := false), data, data);
  }

  /** Modifying a buffer in the cache only. */
  lemma {:induction false} CoherentPin(bufs: seq<Buf>, disk: map<Key, Block>, logical: map<Key, Block>, i: nat, data: Block)
    requires Coherent(bufs, disk, logical) && i < |bufs| && bufs[i].key.0 != 0 && bufs[i].valid
    ensures Coherent(bufs[i := bufs[i].(data := data, dirty := true)], disk, logical[bufs[i].key := data])
  {
    var k := bufs[i].key;
    assert disk == disk[k := disk[k]];
    CoherentUpdate(bufs, disk, logical, i, bufs[i].(data := data, dirty := true), disk[k], data);
  }

  // ---------------------------------------------------------------- the free buffers

  /** A clean buffer nobody holds. */
  ghost predicate Free(bufs: seq<Buf>, i: int) {
    0 <= i < |bufs| && !Busy(bufs[i])
  }

  /** How many buffers are pinned. */
  ghost function DirtyCount(bufs: seq<Buf>): (n: nat) {
    if bufs == [] then 0
    else DirtyCount(bufs[..|bufs| - 1]) + if bufs[|bufs| - 1].dirty then 1 else 0
  }

  lemma {:induction false} DirtyCountUpdate(bufs: seq<Buf>, i: nat, b: Buf)
    requires i < |bufs|
    ensures DirtyCount(bufs[i := b])
            == DirtyCount(bufs) + (if b.dirty then 1 else 0) - (if bufs[i].dirty then 1 else 0)
  {
    var n := |bufs| - 1;
    if i == n {
      assert bufs[i := b][..n] == bufs[..n];
    } else {
      assert bufs[i := b][..n] == bufs[..n][i := b];
      DirtyCountUpdate(bufs[..n], i, b);
    }
  }

  /** With nothing held, a buffer is free as long as fewer than all of them are pinned. */
  lemma {:induction false} FreeExists(bufs: seq<Buf>) returns (i: int)
    requires DirtyCount(bufs) < |bufs| && forall j :: 0 <= j < |bufs| ==> bufs[j].refcnt == 0
    ensures Free(bufs, i)
  {
    var n := |bufs| - 1;
    if bufs[n].dirty {
      i := FreeExists(bufs[..n]);
    } else {
      i := n;
    }
  }

  /** The list is in order of last release. */
  ghost predicate Stamped(order: seq<nat>, stamp: seq<nat>, clock: nat)
    requires |order| == |stamp| && forall i :: 0 <= i < |order| ==> order[i] < |stamp|
  {
    && (forall i :: 0 <= i < |stamp| ==> stamp[i] < clock)
    && (forall i, j :: 0 <= i < j < |order| ==> stamp[order[i]] > stamp[order[j]])
  }

  lemma {:induction false} StampFront(order: seq<nat>, stamp: seq<nat>, clock: nat, k: nat)
    requires |order| == |stamp| && (forall i :: 0 <= i < |order| ==> order[i] < |stamp|) && k < |order|
    requires Stamped(order, stamp, clock)
    ensures var order', stamp' := [order[k]] + order[..k] + order[k + 1..], stamp[order[k] := clock];
            |order'| == |stamp'| && (forall i :: 0 <= i < |order'| ==> order'[i] < |stamp'|) &&
            Stamped(order', stamp', clock + 1)
  {
    var order', stamp' := [order[k]] + order[..k] + order[k + 1..], stamp[order[k] := clock];
    forall i, j | 0 <= i < j < |order'|
      ensures stamp'[order'[i]] > stamp'[order'[j]]
    {
      var j0 := if j <= k then j - 1 else j;
      assert order'[j] == order[j0] && j0 != k;
      assert stamp[order[j0]] != stamp[order[k]];
      if i > 0 {
        var i0 := if i <= k then i - 1 else i;
        assert order'[i] == order[i0] && i0 != k;
        assert stamp[order[i0]] != stamp[order[k]];
      }
    }
  }

  /** The list runs through every buffer exactly once. */
  ghost predicate Listed(nx: seq<nat>, pv: seq<nat>, order: seq<nat>) {
    |order| == NBUF && |nx| == NBUF + 1 && Linked(nx, pv, [HEAD] + order)
  }

  /** Unlinking a buffer and linking it in again at the head. */
  lemma {:induction false} Relink(nx: seq<nat>, pv: seq<nat>, order: seq<nat>, k: nat)
    requires Listed(nx, pv, order) && k < NBUF
    ensures var b := order[k];
            b < NBUF && nx[b] < |nx| == |pv| && pv[b] < |nx| && nx[b] != b && pv[b] != b &&
            var nx1, pv1 := nx[pv[b] := nx[b]], pv[nx[b] := pv[b]];
            nx1[HEAD] < |nx| &&
            Listed(nx1[b := nx1[HEAD]][HEAD := b], pv1[b := HEAD][nx1[HEAD] := b], [b] + order[..k] + order[k + 1..])
  {
    hide Linked;
    var ring := [HEAD] + order;
    var b := order[k];
    RingOf(nx, pv, ring);
    assert ring[k + 1] == b && ring[0] == HEAD;
    Unlink(nx, pv, ring, k + 1);
    var rest := ring[..k + 1] + ring[k + 2..];
    assert b !in rest;
    PushFront(nx[pv[b] := nx[b]], pv[nx[b] := pv[b]], rest, b);
    assert [HEAD, b] + rest[1..] == [HEAD] + ([b] + order[..k] + order[k + 1..]);
  }

  lemma {:induction false} RingOf(nx: seq<nat>, pv: seq<nat>, ring: seq<nat>)
    requires Linked(nx, pv, ring)
    ensures IsRing(ring, |nx|) && |nx| == |pv|
  {
  }

  // ---------------------------------------------------------------- code

  class Cache {
    const buf: array<Buf>
    const next: array<nat>
    const prev: array<nat>
    var disk: map<Key, Block>
    ghost var logical: map<Key, Block>
    ghost var order: seq<nat>  // the list, most recently released first
    ghost var stamp: seq<nat>  // when each buffer was last released to no users
    ghost var clock: nat

    ghost predicate Valid()
      reads this, buf, next, prev
    {
      && buf.Length == NBUF && next.Length == NBUF + 1 && prev.Length == NBUF + 1 && next != prev
      && |order| == NBUF && (forall i :: 0 <= i < NBUF ==> order[i] < NBUF)
      && Listed(next[..], prev[..], order)
      && |stamp| == NBUF && Stamped(order, stamp, clock)
      && Coherent(buf[..], disk, logical)
    }

    /** binit(): every buffer inserted at the head in turn. */
    constructor (disk: map<Key, Block>)
      ensures Valid() && this.disk == disk && logical == disk && fresh(buf) && fresh(next) && fresh(prev)
      ensures forall i :: 0 <= i < NBUF ==> !Busy(buf[i]) && !buf[i].valid
    {
      var zero: Block := seq(512, _ => 0);
      buf := new Buf[NBUF](_ => Buf((0, 0), false, false, 0, zero));
      next := new nat[NBUF + 1](_ => 0);
      prev := new nat[NBUF + 1](_ => 0);
      this.disk, logical, order, stamp, clock := disk, disk, [], seq(NBUF, i => i), NBUF;
      new;
      next[HEAD], prev[HEAD] := HEAD, HEAD;
      var b := 0;
      while b < NBUF
        invariant 0 <= b <= NBUF && |order| == b
        invariant forall i :: 0 <= i < b ==> order[i] == b - 1 - i
        invariant Linked(next[..], prev[..], [HEAD] + order)
        invariant stamp == seq(NBUF, i => i) && clock == NBUF && this.disk == logical == disk
        invariant forall i :: 0 <= i < NBUF ==> buf[i] == Buf((0, 0), false, false, 0, zero)
      {
        ghost var ring := [HEAD] + order;
        PushFront(next[..], prev[..], ring, b);
        assert [HEAD, b] + ring[1..] == [HEAD] + ([b] + order);
        PushHead(b);
        order := [b] + order;
        b := b + 1;
      }
    }

    /** Links `b` in right after the head. */
    method PushHead(b: nat)
      requires next.Length == NBUF + 1 && prev.Length == NBUF + 1 && next != prev && b < NBUF
      requires next[HEAD] < NBUF + 1
      modifies next, prev
      ensures next[..] == old(next[..])[b := old(next[HEAD])][HEAD := b]
      ensures prev[..] == old(prev[..])[b := HEAD][old(next[HEAD]) := b]
    {
      next[b] := next[HEAD];
      prev[b] := HEAD;
      prev[next[HEAD]] := b;
      next[HEAD] := b;
    }

    /** The list reaches every buffer. */
    lemma {:induction false} Reaches(m: nat) returns (i: nat)
      requires Valid() && m < NBUF
      ensures i < NBUF && order[i] == m
    {
      hide Coherent;
      var ring := [HEAD] + order;
      assert forall i :: 0 <= i < NBUF ==> ring[i + 1] == order[i];
      AllListed(order, m);
      i :| 0 <= i < |order| && order[i] == m;
    }

    /** Following the links in either direction follows the list. */
    lemma {:induction false} Neighbours(i: int)
      requires Valid() && -1 <= i < NBUF
      ensures next[if i < 0 then HEAD else order[i]] == if i + 1 < NBUF then order[i + 1] else HEAD
      ensures prev[if i + 1 < NBUF then order[i + 1] else HEAD] == if i < 0 then HEAD else order[i]
    {
      hide Coherent, IsRing;
      var ring := [HEAD] + order;
      assert ring[i + 1] == (if i < 0 then HEAD else order[i]);
      assert ring[After(i + 1, NBUF + 1)] == (if i + 1 < NBUF then order[i + 1] else HEAD);
    }

    /** The first loop of bget(): is the block already cached? */
    method FindCached(dev: nat, blockno: nat) returns (b: nat)
      requires Valid()
      ensures b <= HEAD
      ensures b < HEAD ==> buf[b].key == (dev, blockno)
      ensures b < HEAD <==> Cached(buf[..], (dev, blockno))
    {
      hide Listed, Coherent, Stamped;
      b := next[HEAD];
      ghost var i := 0;
      Neighbours(-1);
      while b != HEAD
        invariant 0 <= i <= NBUF && b == if i < NBUF then order[i] else HEAD
        invariant forall j :: 0 <= j < i ==> buf[order[j]].key != (dev, blockno)
        decreases NBUF - i
      {
        if buf[b].key == (dev, blockno) {
          assert buf[..][b].key == (dev, blockno);
          return;
        }
        Neighbours(i);
        b := next[b];
        i := i + 1;
      }
      NotCached(dev, blockno);
    }

    /** The second loop of bget(): an unused buffer, looking from the tail of the list. */
    method FindFree() returns (b: nat)
      requires Valid()
      ensures b <= HEAD
      ensures b < HEAD ==> Recycled(buf[..], b)
      ensures b == HEAD ==> forall i :: 0 <= i < NBUF ==> Busy(buf[i])
    {
      hide Listed, Coherent, Stamped, Recycled;
      b := prev[HEAD];
      ghost var i := NBUF;
      Neighbours(NBUF - 1);
      while b != HEAD
        invariant 0 <= i <= NBUF && b == if i > 0 then order[i - 1] else HEAD
        invariant forall j :: i <= j < NBUF ==> Busy(buf[order[j]])
        decreases i
      {
        if buf[b].refcnt == 0 && !buf[b].dirty {
          OldestFree(i - 1);
          return;
        }
        i := i - 1;
        Neighbours(i - 1);
        b := prev[b];
      }
      AllBusy();
    }

    /** bget(): the buffer for a block, with a reference taken; None is the "no buffers" panic. */
    method Bget(dev: nat, blockno: nat) returns (r: Option<nat>)
      requires Valid() && dev != 0 && (dev, blockno) in disk
      modifies buf
      ensures Valid()
      ensures r.None? <==> !Cached(old(buf[..]), (dev, blockno)) && forall i :: 0 <= i < NBUF ==> Busy(old(buf[i]))
      ensures r.None? ==> buf[..] == old(buf[..])
      ensures r.Some? ==>
                && r.value < NBUF
                && buf[..] == old(buf[..])[r.value := buf[r.value]]
                && if Cached(old(buf[..]), (dev, blockno))
                   then old(buf[r.value]).key == (dev, blockno)
                        && buf[r.value] == old(buf[r.value]).(refcnt := old(buf[r.value]).refcnt + 1)
                   else Recycled(old(buf[..]), r.value)
                        && buf[r.value] == Buf((dev, blockno), false, false, 1, old(buf[r.value]).data)
    {
      hide Listed, Coherent, Stamped, Cached;
      var b := FindCached(dev, blockno);
      if b != HEAD {
        CoherentRef(buf[..], disk, logical, b, buf[b].refcnt + 1);
        buf[b] := buf[b].(refcnt := buf[b].refcnt + 1);
        assert buf[..] == old(buf[..])[b := buf[b]];
        return Some(b);
      }
      b := FindFree();
      if b != HEAD {
        CoherentRecycle(buf[..], disk, logical, b, Buf((dev, blockno), false, false, 1, buf[b].data));
        buf[b] := Buf((dev, blockno), false, false, 1, buf[b].data);
        assert buf[..] == old(buf[..])[b := buf[b]];
        return Some(b);
      }
      return None;
    }

    lemma {:induction false} NotCached(dev: nat, blockno: nat)
      requires Valid() && forall j :: 0 <= j < NBUF ==> buf[order[j]].key != (dev, blockno)
      ensures !Cached(buf[..], (dev, blockno))
    {
      hide Coherent, Listed, Stamped;
      forall m | 0 <= m < NBUF
        ensures buf[m].key != (dev, blockno)
      {
        var i := Reaches(m);
      }
    }

    lemma {:induction false} AllBusy()
      requires Valid() && forall j :: 0 <= j < NBUF ==> Busy(buf[order[j]])
      ensures forall m :: 0 <= m < NBUF ==> Busy(buf[m])
    {
      hide Coherent, Listed, Stamped;
      forall m | 0 <= m < NBUF
        ensures Busy(buf[m])
      {
        var i := Reaches(m);
      }
    }

    /** The first free buffer from the tail of the list is the one released longest ago. */
    lemma {:induction false} OldestFree(i: nat)
      requires Valid() && i < NBUF && !Busy(buf[order[i]])
      requires forall j :: i < j < NBUF ==> Busy(buf[order[j]])
      ensures Recycled(buf[..], order[i])
    {
      hide Coherent, Listed;
      forall m | 0 <= m < NBUF && !Busy(buf[m])
        ensures stamp[order[i]] <= stamp[m]
      {
        var j := Reaches(m);
      }
    }

    /** The least recently released of the free buffers. */
    ghost predicate Recycled(bufs: seq<Buf>, v: nat)
      reads this
    {
      v < NBUF == |stamp| == |bufs| && !Busy(bufs[v]) &&
      forall i :: 0 <= i < NBUF && !Busy(bufs[i]) ==> stamp[v] <= stamp[i]
    }

    /** bread(): a buffer holding the block as the kernel sees it; None is the "no buffers" panic. */
    method Bread(dev: nat, blockno: nat) returns (r: Option<nat>)
      requires Valid() && dev != 0 && (dev, blockno) in disk
      modifies buf
      ensures Valid()
      ensures r.None? <==> !Cached(old(buf[..]), (dev, blockno)) && forall i :: 0 <= i < NBUF ==> Busy(old(buf[i]))
      ensures r.None? ==> buf[..] == old(buf[..])
      ensures r.Some? ==>
                && r.value < NBUF
                && buf[..] == old(buf[..])[r.value := buf[r.value]]
                && (Cached(old(buf[..]), (dev, blockno)) ==> old(buf[r.value]).key == (dev, blockno))
                && (!Cached(old(buf[..]), (dev, blockno)) ==> Recycled(old(buf[..]), r.value))
                && Reads(old(buf[r.value]), buf[r.value], (dev, blockno))
    {
      hide Listed, Coherent, Stamped, Cached;
      r := Bget(dev, blockno);
      if r.Some? {
        var b := r.value;
        CoherentAt(buf[..], disk, logical, b);
        if !buf[b].valid {
          // iderw(): the buffer is not dirty, so its block is read from the disk
          CoherentLoad(buf[..], disk, logical, b);
          buf[b] := buf[b].(data := disk[(dev, blockno)], valid := true);
          assert buf[..] == old(buf[..])[b := buf[b]];
        }
        CoherentAt(buf[..], disk, logical, b);
        assert buf[b].data == logical[(dev, blockno)];
      }
    }

    /** Buffer `b` has become `c`, which holds block `k` for one more user. */
    ghost predicate Reads(b: Buf, c: Buf, k: Key)
      reads this
    {
      c.key == k && c.valid && c.refcnt == b.refcnt + 1 && c.dirty == b.dirty && k in logical && c.data == logical[k]
    }

    /** Fill a held buffer with `data` and bwrite() it. */
    method Bwrite(b: nat, data: Block)
      requires Valid() && b < NBUF && buf[b].refcnt > 0
      modifies buf, `disk, `logical
      ensures Valid()
      ensures buf[..] == old(buf[..])[b := old(buf[b]).(data := data, valid := true, dirty := false)]
      ensures disk == old(disk)[buf[b].key := data] && logical == old(logical)[buf[b].key := data]
    {
      hide Listed, Coherent, Stamped;
      CoherentAt(buf[..], disk, logical, b);
      CoherentStore(buf[..], disk, logical, b, data);
      buf[b] := buf[b].(data := data, valid := true, dirty := false);
      disk, logical := disk[buf[b].key := data], logical[buf[b].key := data];
      assert buf[..] == old(buf[..])[b := buf[b]];
    }

    /** Fill a held buffer with `data` and log_write() it: pinned until its transaction commits. */
    method Pin(b: nat, data: Block)
      requires Valid() && b < NBUF && buf[b].refcnt > 0 && buf[b].valid
      modifies buf, `logical
      ensures Valid()
      ensures buf[..] == old(buf[..])[b := old(buf[b]).(data := data, dirty := true)]
      ensures logical == old(logical)[buf[b].key := data]
    {
      hide Listed, Coherent, Stamped;
      CoherentAt(buf[..], disk, logical, b);
      CoherentPin(buf[..], disk, logical, b, data);
      buf[b] := buf[b].(data := data, dirty := true);
      logical := logical[buf[b].key := data];
      assert buf[..] == old(buf[..])[b := buf[b]];
    }

    /** brelse(): drop a reference; the last one moves the buffer to the head of the list. */
    method Brelse(b: nat)
      requires Valid() && b < NBUF && buf[b].refcnt > 0
      modifies buf, next, prev, `order, `stamp, `clock
      ensures Valid()
      ensures buf[..] == old(buf[..])[b := old(buf[b]).(refcnt := old(buf[b]).refcnt - 1)]
      ensures old(buf[b]).refcnt > 1 ==> order == old(order) && stamp == old(stamp)
      ensures old(buf[b]).refcnt == 1 ==>
                && stamp == old(stamp)[b := old(clock)]
                && exists k :: 0 <= k < NBUF && old(order)[k] == b && order == [b] + old(order)[..k] + old(order)[k + 1..]
    {
      hide Coherent, Listed, Stamped;
      CoherentAt(buf[..], disk, logical, b);
      CoherentRef(buf[..], disk, logical, b, buf[b].refcnt - 1);
      buf[b] := buf[b].(refcnt := buf[b].refcnt - 1);
      assert buf[..] == old(buf[..])[b := buf[b]];
      if buf[b].refcnt == 0 {
        ghost var k := Reaches(b);
        MoveToFront(b, k);
      }
    }

    /** The relinking in brelse(). */
    method MoveToFront(b: nat, ghost k: nat)
      requires Valid() && k < NBUF && order[k] == b
      modifies next, prev, `order, `stamp, `clock
      ensures Valid()
      ensures order == [b] + old(order)[..k] + old(order)[k + 1..]
      ensures stamp == old(stamp)[b := old(clock)]
    {
      hide Coherent, Stamped, Listed;
      Relink(next[..], prev[..], order, k);
      StampFront(order, stamp, clock, k);
      Detach(b);
      PushHead(b);
      order, stamp, clock := [b] + order[..k] + order[k + 1..], stamp[b := clock], clock + 1;
    }

    /** Unlinks `b` from its neighbours. */
    method Detach(b: nat)
      requires next.Length == NBUF + 1 && prev.Length == NBUF + 1 && next != prev && b < NBUF
      requires next[b] < NBUF + 1 && prev[b] < NBUF + 1 && next[b] != b && prev[b] != b
      modifies next, prev
      ensures next[..] == old(next[..])[old(prev[b]) := old(next[b])]
      ensures prev[..] == old(prev[..])[old(next[b]) := old(prev[b])]
    {
      prev[next[b]] := prev[b];
      next[prev[b]] := next[b];
    }
  }
}
