/** The ring buffer of pipe.c, with its 32-bit read and write counters. */
module Pipe {
  import opened Blocks

  const PIPESIZE := 512
  const UINT := 0x1_0000_0000

  /** The buffer and counters of struct pipe. */
  datatype Ring = Ring(data: seq<Byte>, nread: Word, nwrite: Word)

  /** Bytes stored and not yet read: nwrite - nread in 32-bit arithmetic. */
  function Count(q: Ring): (n: nat) {
    (q.nwrite - q.nread) % UINT
  }

  predicate ValidRing(q: Ring) {
    |q.data| == PIPESIZE && Count(q) <= PIPESIZE
  }

  /** nwrite == nread + PIPESIZE, in 32-bit arithmetic. */
  predicate IsFull(q: Ring) {
    q.nwrite == (q.nread + PIPESIZE) % UINT
  }

  predicate IsEmpty(q: Ring) {
    q.nread == q.nwrite
  }

  /** Where the `i`th queued byte sits in the buffer. */
  function Slot(nread: Word, i: nat): (k: nat)
    ensures k < PIPESIZE
  {
    (nread + i) % UINT % PIPESIZE
  }

  /** The queue the ring stands for, oldest byte first. */
  function Queue(q: Ring): (s: seq<Byte>)
    requires ValidRing(q)
    ensures |s| == Count(q)
  {
    seq(Count(q), i requires 0 <= i < Count(q) => q.data[Slot(q.nread, i)])
  }

  /** data[nwrite++ % PIPESIZE] = b */
  function Put(q: Ring, b: Byte): (r: Ring)
    requires |q.data| == PIPESIZE
  {
    Ring(q.data[q.nwrite % PIPESIZE := b], q.nread, (q.nwrite + 1) % UINT)
  }

  /** The byte at nread++ % PIPESIZE is gone. */
  function Drop(q: Ring): (r: Ring) {
    q.(nread := (q.nread + 1) % UINT)
  }

  lemma {:induction false} FullEmpty(q: Ring)
    requires ValidRing(q)
    ensures IsFull(q) <==> Count(q) == PIPESIZE
    ensures IsEmpty(q) <==> Count(q) == 0
  {
  }

  /** Because PIPESIZE divides 2^32, positions in the buffer do not jump when a counter wraps. */
  lemma {:induction false} WrapIsHarmless(x: nat)
    ensures x % UINT % PIPESIZE == x % PIPESIZE
  {
  }

  /** The next write goes to the slot after the last queued byte. */
  lemma {:induction false} SlotEnd(q: Ring)
    ensures q.nwrite % PIPESIZE == Slot(q.nread, Count(q))
  {
    var n := Count(q);
    assert q.nwrite == (q.nread + n) % UINT;
  }

  lemma {:induction false} SlotShift(nread: Word, i: nat)
    ensures Slot((nread + 1) % UINT, i) == Slot(nread, i + 1)
  {
    assert ((nread + 1) % UINT + i) % UINT == (nread + 1 + i) % UINT;
  }

  lemma {:induction false} SlotZero(nread: Word)
    ensures Slot(nread, 0) == nread % PIPESIZE
  {
  }

  /** Different queued bytes have different slots. */
  lemma {:induction false} SlotsApart(nread: Word, i: nat, n: nat)
    requires i < n < i + PIPESIZE
    ensures Slot(nread, i) != Slot(nread, n)
  {
    WrapIsHarmless(nread + i);
    WrapIsHarmless(nread + n);
    Apart(nread + i, n - i);
  }

  lemma {:induction false} Apart(a: nat, d: nat)
    requires 0 < d < PIPESIZE
    ensures a % PIPESIZE != (a + d) % PIPESIZE
  {
  }

  lemma {:induction false} CountCases(q: Ring)
    ensures Count(q) == if q.nwrite >= q.nread then q.nwrite - q.nread else q.nwrite - q.nread + UINT
  {
  }

  lemma {:induction false} NextWord(w: Word)
    ensures (w + 1) % UINT == if w + 1 == UINT then 0 else w + 1
  {
  }

  lemma {:induction false} Counts(q: Ring, b: Byte)
    requires ValidRing(q)
    ensures !IsFull(q) ==> Count(Put(q, b)) == Count(q) + 1
    ensures !IsEmpty(q) ==> Count(Drop(q)) == Count(q) - 1
  {
    FullEmpty(q);
    CountCases(q);
    CountCases(Put(q, b));
    CountCases(Drop(q));
    NextWord(q.nread);
    NextWord(q.nwrite);
    hide Count, IsFull;
  }

  /** Storing a byte appends it to the queue. */
  lemma {:induction false} PutQueue(q: Ring, b: Byte)
    requires ValidRing(q) && !IsFull(q)
    ensures ValidRing(Put(q, b)) && Queue(Put(q, b)) == Queue(q) + [b]
  {
    FullEmpty(q);
    Counts(q, b);
    SlotEnd(q);
    hide Slot, Count, IsFull;
    var r := Put(q, b);
    var n := Count(q);
    forall i | 0 <= i < n
      ensures Queue(r)[i] == Queue(q)[i]
    {
      SlotsApart(q.nread, i, n);
    }
  }

  /** Fetching a byte takes the head of the queue. */
  lemma {:induction false} DropQueue(q: Ring)
    requires ValidRing(q) && !IsEmpty(q)
    ensures ValidRing(Drop(q)) && Queue(q) == [q.data[q.nread % PIPESIZE]] + Queue(Drop(q))
  {
    FullEmpty(q);
    Counts(q, 0);
    SlotZero(q.nread);
    hide Slot, Count, IsEmpty;
    var r := Drop(q);
    forall i | 0 <= i < Count(r)
      ensures Queue(r)[i] == Queue(q)[i + 1]
    {
      SlotShift(q.nread, i);
    }
  }

  // ---------------------------------------------------------------- many bytes at once

  function PutAll(q: Ring, s: seq<Byte>): (r: Ring)
    requires |q.data| == PIPESIZE
    ensures |r.data| == PIPESIZE
  {
    if s == [] then q else Put(PutAll(q, s[..|s| - 1]), s[|s| - 1])
  }

  function DropAll(q: Ring, m: nat): (r: Ring)
    ensures r.data == q.data
  {
    if m == 0 then q else Drop(DropAll(q, m - 1))
  }

  lemma {:induction false} PutAllQueue(q: Ring, s: seq<Byte>)
    requires ValidRing(q) && Count(q) + |s| <= PIPESIZE
    ensures ValidRing(PutAll(q, s)) && Queue(PutAll(q, s)) == Queue(q) + s
  {
    hide Queue, Count, IsFull;
    if s != [] {
      var n := |s| - 1;
      PutAllQueue(q, s[..n]);
      FullEmpty(PutAll(q, s[..n]));
      PutQueue(PutAll(q, s[..n]), s[n]);
      assert s == s[..n] + [s[n]];
    }
  }

  lemma {:induction false} DropAllQueue(q: Ring, m: nat)
    requires ValidRing(q) && m <= Count(q)
    ensures ValidRing(DropAll(q, m)) && Queue(DropAll(q, m)) == Queue(q)[m..]
  {
    hide Queue, Count, IsEmpty;
    if m > 0 {
      DropAllQueue(q, m - 1);
      FullEmpty(DropAll(q, m - 1));
      DropQueue(DropAll(q, m - 1));
    }
  }

  /** How many of the `n` bytes left fit. */
  function Fitting(q: Ring, n: nat): (k: nat)
    requires ValidRing(q)
    ensures k <= n && Count(q) + k <= PIPESIZE
  {
    if n <= PIPESIZE - Count(q) then n else PIPESIZE - Count(q)
  }

  // ---------------------------------------------------------------- code

  lemma {:induction false} PutNone(q: Ring)
    requires |q.data| == PIPESIZE
    ensures PutAll(q, []) == q
  {
  }

  lemma {:induction false} PutMore(q: Ring, s: seq<Byte>, b: Byte)
    requires |q.data| == PIPESIZE
    ensures PutAll(q, s + [b]) == Put(PutAll(q, s), b)
  {
    assert (s + [b])[..|s|] == s;
  }

  lemma {:induction false} NotFull(q: Ring)
    ensures IsFull(q) <==> q.nwrite == (q.nread + PIPESIZE) % UINT
  {
  }

  lemma {:induction false} PutIs(q: Ring, b: Byte)
    requires |q.data| == PIPESIZE
    ensures Put(q, b) == Ring(q.data[q.nwrite % PIPESIZE := b], q.nread, (q.nwrite + 1) % UINT)
  {
  }

  class PipeBuf {
    const data: array<Byte>
    var nread: Word
    var nwrite: Word

    function Val(): (q: Ring)
      reads this, data
    {
      Ring(data[..], nread, nwrite)
    }

    constructor ()
      ensures ValidRing(Val()) && Queue(Val()) == [] && fresh(data)
    {
      data := new Byte[PIPESIZE](_ => 0);
      nread, nwrite := 0, 0;
    }

    /** pipewrite() with the lock held: from byte `i` of `addr` on, until done or full. */
    method Write(addr: seq<Byte>, i: nat) returns (k: nat)
      requires ValidRing(Val()) && i <= |addr|
      modifies this, data
      ensures ValidRing(Val()) && i <= k <= |addr|
      ensures Queue(Val()) == old(Queue(Val())) + addr[i..k]
      ensures k < |addr| ==> IsFull(Val())
      ensures k == i + Fitting(old(Val()), |addr| - i) && Val() == PutAll(old(Val()), addr[i..k])
    {
      hide Queue, Count, IsFull, Put, PutAll;
      k := i;
      assert Val() == PutAll(old(Val()), addr[i..k]) by { PutNone(Val()); }
      while k < |addr| && nwrite != (nread + PIPESIZE) % UINT
        invariant i <= k <= |addr| && ValidRing(Val())
        invariant Queue(Val()) == old(Queue(Val())) + addr[i..k]
        invariant Val() == PutAll(old(Val()), addr[i..k])
      {
        assert !IsFull(Val()) by { NotFull(Val()); }
        PutQueue(Val(), addr[k]);
        ghost var q := Val();
        data[nwrite % PIPESIZE] := addr[k];
        nwrite := (nwrite + 1) % UINT;
        assert Val() == Put(q, addr[k]) by { PutIs(q, addr[k]); }
        PutMore(old(Val()), addr[i..k], addr[k]);
        assert addr[i..k + 1] == addr[i..k] + [addr[k]];
        k := k + 1;
      }
      if k < |addr| {
        assert IsFull(Val()) by { NotFull(Val()); }
      }
      FullEmpty(Val());
    }

    /** The copying loop of piperead(). */
    method Read(n: nat) returns (addr: seq<Byte>)
      requires ValidRing(Val())
      modifies this
      ensures ValidRing(Val()) && old(Queue(Val())) == addr + Queue(Val())
      ensures |addr| == if n < |old(Queue(Val()))| then n else |old(Queue(Val()))|
      ensures Val() == DropAll(old(Val()), |addr|)
    {
      hide Queue;
      addr := [];
      while |addr| < n && nread != nwrite
        invariant |addr| <= n && ValidRing(Val()) && data[..] == old(data[..])
        invariant old(Queue(Val())) == addr + Queue(Val())
        invariant Val() == DropAll(old(Val()), |addr|)
        decreases n - |addr|
      {
        DropQueue(Val());
        addr := addr + [data[nread % PIPESIZE]];
        nread := (nread + 1) % UINT;
      }
      FullEmpty(Val());
    }
  }
}
