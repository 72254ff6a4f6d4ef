/** kalloc.c and vm.c: the page allocator and the operations on address spaces, over all of physical
    memory. */
module Vm {

  import opened Options
  import opened Blocks
  import opened Paging
  import opened VmSteps
  import opened VmRanges

  function Zero(): (b: seq<Byte>) {
    seq(PGSIZE, _ => 0)
  }

  ghost function AllocFlags(): (f: nat -> nat) {
    _ => PTE_W + PTE_U
  }

  ghost function AllocBytes(): (f: nat -> seq<Byte>) {
    _ => Zero()
  }

  function Frames(lo: nat, hi: nat): (fs: set<Frame>)
    ensures forall f :: f in fs <==> lo <= f < hi
  {
    if hi <= lo then {} else Frames(lo, hi - 1) + {hi - 1}
  }

  lemma {:induction false} DirTable(s: State, d: Frame)
    requires Has(s, d)
    ensures TableAt(s.mem, d)
  {
    assert FrameOk(s.mem, s.free, s.place, d);
  }

  lemma {:induction false} DroppedDir(s: State, r: State, d: Frame, lo: nat, a: nat, i: nat)
    requires Dropped(s, r, d, lo, a) && i < NPDENTRIES
    ensures Has(r, d) && Pde(r.mem, d, i) == Pde(s.mem, d, i)
  {
    hide Sound, Pde, DroppedMem, DroppedTrans, FreedPlaces, Stack;
  }

  lemma {:induction false} TableEntry(m: Mem, d: Frame, i: nat, j: nat)
    requires Pde(m, d, i).Present? && TableAt(m, Pde(m, d, i).frame) && j < NPTENTRIES
    ensures Pte(m, d, i, j) == m[Pde(m, d, i).frame].entries[j]
  {
  }

  /** mappages(): done, no memory for a page table, or the panic for a page that is mapped already. */
  datatype MapRet = MapOk | MapFull | Remap

  /** copyuvm(): the copy, failure for want of memory, or the panic for a page that is missing. */
  datatype CopyRet = CopyOk(child: Frame) | CopyFail | CopyPanic

  /** The first page from `lo` below `hi` that is not mapped. */
  ghost function FirstAbsent(m: Mem, d: Frame, lo: nat, hi: nat): (p: nat)
    ensures lo <= hi ==> lo <= p <= hi && (p < hi ==> Trans(m, d, p) == Absent)
    ensures forall v :: lo <= v < p ==> Trans(m, d, v).Present?
    decreases hi - lo
  {
    if lo >= hi || Trans(m, d, lo) == Absent then lo else FirstAbsent(m, d, lo + 1, hi)
  }

  /** The first page from `lo` below `hi` that is mapped. */
  ghost function FirstMapped(m: Mem, d: Frame, lo: nat, hi: nat): (p: nat)
    ensures lo <= hi ==> lo <= p <= hi && (p < hi ==> Trans(m, d, p).Present?)
    ensures forall v :: lo <= v < p ==> Trans(m, d, v) == Absent
    decreases hi - lo
  {
    if lo >= hi || Trans(m, d, lo).Present? then lo else FirstMapped(m, d, lo + 1, hi)
  }

  lemma {:induction false} TransIs(m: Mem, d: Frame, v: nat)
    ensures Trans(m, d, v) == Pte(m, d, v / NPTENTRIES, v % NPTENTRIES)
    ensures Pde(m, d, v / NPTENTRIES) == Absent ==> Trans(m, d, v) == Absent
  {
  }

  lemma {:induction false} PageRange(va: nat, size: nat)
    requires size > 0 && KERNBASE <= va && va + size <= 0x1_0000_0000
    ensures KB <= va / PGSIZE <= (va + size - 1) / PGSIZE < PAGES
  {
  }

  lemma {:induction false} NoTableNoPage(m: Mem, d: Frame, v: nat)
    ensures Pde(m, d, v / NPTENTRIES) == Absent ==> Trans(m, d, v) == Absent
  {
  }

  class Memory {
    var mem: Mem
    var freelist: seq<Frame>
    ghost var place: Places

    /** Page number of the first page of kernel data. */
    const data: nat

    ghost function St(): (s: State)
      reads this
    {
      State(mem, freelist, place)
    }

    ghost predicate Valid()
      reads this
    {
      Ok(St())
    }

    ghost predicate IsPgdir(d: Frame)
      reads this
    {
      Has(St(), d)
    }

    /** kinit1() and kinit2(): all pages from `lo` below `hi` are put on the free list. */
    constructor (lo: nat, hi: nat, data: nat)
      ensures Valid() && this.data == data
      ensures forall f :: f in mem <==> lo <= f < hi
      ensures forall f :: f in place ==> place[f] == Free
      ensures |freelist| == if lo <= hi then hi - lo else 0
    {
      this.data := data;
      mem := map f | f in Frames(lo, hi) :: Data([]);
      freelist := [];
      place := map f | f in Frames(lo, hi) :: Held;
      new;
      assert Valid();
      hide Ok, Frames;
      var p := lo;
      while p < hi
        invariant Valid()
        invariant forall f :: f in mem <==> lo <= f < hi
        invariant forall f :: f in place ==> place[f] == if f < p then Free else Held
        invariant |freelist| == p - lo && (lo <= hi ==> p <= hi)
      {
        assert place[p] == Held;
        KfreeHeld(p);
        p := p + 1;
      }
    }

    /** kfree(): the page is overwritten and becomes the first of the free list. */
    method Kfree(f: Frame)
      requires f in mem
      modifies this`mem, this`freelist
      ensures mem == old(mem)[f := Data(Junk())] && freelist == [f] + old(freelist)
    {
      mem := mem[f := Data(Junk())];
      freelist := [f] + freelist;
    }

    /** kfree() of a page in the kernel's hands. */
    method KfreeHeld(f: Frame)
      requires Valid() && f in place && place[f] == Held
      modifies this`mem, this`freelist, this`place
      ensures Valid() && St() == GivenBack(old(St()), f)
      ensures mem.Keys == old(mem.Keys)
    {
      Give(mem, freelist, place, f, Junk());
      Kfree(f);
      place := place[f := Free];
    }

    /** kalloc(): the first page of the free list, if there is one. */
    method Kalloc() returns (f: Option<Frame>)
      requires Valid()
      modifies this`freelist, this`place
      ensures Valid()
      ensures old(freelist) == [] ==> f == None && St() == old(St())
      ensures old(freelist) != [] ==>
                && f == Some(old(freelist[0])) && freelist == old(freelist[1..])
                && f.value in old(place) && old(place)[f.value] == Free
                && place == old(place)[f.value := Held]
    {
      if freelist == [] {
        return None;
      }
      Take(mem, freelist, place);
      f := Some(freelist[0]);
      freelist := freelist[1..];
      place := place[f.value := Held];
    }

    // -------------------------------------------------------------- one page

    /** walkpgdir(): the page table for entry `i`, made on the first free page if it is missing and
        `alloc` is set. */
    method Walkpgdir(d: Frame, i: nat, alloc: bool) returns (t: Option<Frame>)
      requires IsPgdir(d) && i < NPDENTRIES
      modifies this`mem, this`freelist, this`place
      ensures IsPgdir(d)
      ensures old(Pde(mem, d, i)).Present? ==> St() == old(St())
      ensures old(Pde(mem, d, i)) == Absent && (!alloc || old(freelist) == []) ==> t == None && St() == old(St())
      ensures old(Pde(mem, d, i)) == Absent && alloc && old(freelist) != [] ==> TableAdded(old(St()), St(), d, i)
      ensures t.Some? <==> Pde(mem, d, i).Present?
      ensures t.None? ==> !alloc || old(freelist) == []
      ensures t.Some? ==> Pde(mem, d, i).frame == t.value && TableAt(mem, t.value)
    {
      hide Pte, Sound;
      DirTable(St(), d);
      var pde := mem[d].entries[i];
      assert pde == Pde(mem, d, i);
      ghost var s := St();
      if pde.Present? {
        t := Some(pde.frame);
      } else {
        if !alloc {
          return None;
        }
        t := Kalloc();
        if t.None? {
          return;
        }
        AddTable(s, d, i, PTE_W + PTE_U);
        assert s.place[t.value := Tab(d, i)] == place[t.value := Tab(d, i)];
        place := place[t.value := Tab(d, i)];
        mem := WithTable(mem, d, i, t.value, PTE_W + PTE_U);
        assert Pde(mem, d, i).frame == t.value;
        hide TableAdded;
      }
      hide Pde;
      TableOf(mem, freelist, place, d, i);
    }

    /** mappages() for one page: the entry is written, unless a page table was needed and there was
        no memory for it, or the page is mapped already. */
    method MapPage(d: Frame, v: nat, f: Frame, flags: nat) returns (res: MapRet)
      requires IsPgdir(d) && v < PAGES && (v < KB ==> f in place && place[f] == Held)
      modifies this`mem, this`freelist, this`place
      ensures IsPgdir(d)
      ensures res == Remap <==> old(Trans(mem, d, v)).Present?
      ensures res == MapFull <==> old(Pde(mem, d, v / NPTENTRIES)) == Absent && old(freelist) == []
      ensures res != MapOk ==> St() == old(St())
      ensures res == MapOk ==> Mapped(old(St()), St(), d, v / NPTENTRIES, v % NPTENTRIES, f, flags)
    {
      hide Has, Pte, TableAdded, Mapped, PageMapped, SameTables, Pde, Walked;
      var i, j := v / NPTENTRIES, v % NPTENTRIES;
      ghost var s := St();
      TransIs(mem, d, v);
      var t := Walkpgdir(d, i, true);
      ghost var r := St();
      if t.None? {
        assert Pde(s.mem, d, i) == Absent;
        return MapFull;
      }
      TableEntry(mem, d, i, j);
      if mem[t.value].entries[j].Present? {
        if Pde(s.mem, d, i) == Absent {
          WalkKeeps(s, r, d, i, j, f);
        }
        return Remap;
      }
      WalkKeeps(s, r, d, i, j, f);
      if v < KB {
        MapUserPage(r, d, i, j, f, flags);
        place := place[f := User(d, i, j)];
      } else {
        MapKernelPage(r, d, i, j, f, flags);
      }
      mem := SetEntry(mem, t.value, j, Present(f, flags));
      MapAfterWalk(s, r, St(), d, i, j, f, flags);
      MappedDir(s, St(), d, i, j, f, flags);
      res := MapOk;
    }

    // -------------------------------------------------------------- shrinking

    /** deallocuvm(): frees the user pages between the two sizes, exactly as visiting every page
        would, although it passes over absent page tables in one step. */
    method Deallocuvm(d: Frame, oldsz: nat, newsz: nat) returns (r: nat)
      requires IsPgdir(d) && oldsz <= KERNBASE
      modifies this`mem, this`freelist, this`place
      ensures newsz >= oldsz ==> r == oldsz && St() == old(St())
      ensures newsz < oldsz ==> r == newsz && Dropped(old(St()), St(), d, Up(newsz), Up(oldsz))
    {
      if newsz >= oldsz {
        return oldsz;
      }
      hide Sound, Pte, Pde, Trans, Dropped;
      ghost var s := St();
      ghost var lo, hi := Up(newsz), Up(oldsz);
      UpIs(oldsz, 0);
      assert lo <= hi;
      var a := Up(newsz);
      DroppedStart(s, d, lo);
      while a * PGSIZE < oldsz
        invariant lo <= a && hi <= KB
        invariant Dropped(s, St(), d, lo, if a < hi then a else hi)
        decreases KB - a
      {
        UpIs(oldsz, a);
        a := FreeAt(d, a, s, lo, hi);
      }
      UpIs(oldsz, a);
      r := newsz;
    }

    /** One round of deallocuvm(), with the step to the next page to look at. */
    method FreeAt(d: Frame, a: nat, ghost s: State, ghost lo: nat, ghost hi: nat) returns (next: nat)
      requires Has(s, d) && lo <= a < hi <= KB && Dropped(s, St(), d, lo, a)
      modifies this`mem, this`freelist, this`place
      ensures a < next && Dropped(s, St(), d, lo, if next < hi then next else hi)
    {
      hide Has, Pte, Trans, Pde, Dropped;
      var i, j := a / NPTENTRIES, a % NPTENTRIES;
      ghost var r := St();
      DroppedDir(s, r, d, lo, a, i);
      var t := Walkpgdir(d, i, false);
      PageIndex(a, i, j);
      if t.None? {
        next := (i + 1) * NPTENTRIES;
        DropSkip(s, r, d, lo, a, if next < hi then next else hi);
      } else {
        next := a + 1;
        FreeEntry(d, t.value, i, j, s, lo);
      }
    }

    /** The page mapped at entry `j` of table `t`, if there is one, is freed and unmapped. */
    method FreeEntry(d: Frame, t: Frame, i: nat, j: nat, ghost s: State, ghost lo: nat)
      requires Has(s, d) && i < USERPDES && j < NPTENTRIES && lo <= i * NPTENTRIES + j
      requires Dropped(s, St(), d, lo, i * NPTENTRIES + j)
      requires Pde(mem, d, i).Present? && Pde(mem, d, i).frame == t && TableAt(mem, t)
      modifies this`mem, this`freelist, this`place
      ensures Dropped(s, St(), d, lo, i * NPTENTRIES + j + 1)
    {
      hide Has, Pte, Trans, Pde, Dropped, Released, Releasable;
      ghost var r := St();
      DroppedDir(s, r, d, lo, i * NPTENTRIES + j, i);
      TableEntry(mem, d, i, j);
      if mem[t].entries[j].Present? {
        UserFrame(r, d, i, j);
        DropPage(s, r, d, lo, i * NPTENTRIES + j, i, j);
        FreePage(d, t, i, j);
      } else {
        TransAt(mem, d, i, j);
        StillAbsent(s, r, d, lo, i * NPTENTRIES + j);
        DropAbsent(s, r, d, lo, i * NPTENTRIES + j);
      }
    }

    method FreePage(ghost d: Frame, t: Frame, ghost i: nat, j: nat)
      requires Releasable(St(), d, i, j) && Pde(mem, d, i).frame == t
      modifies this`mem, this`freelist, this`place
      ensures old(Releasable(St(), d, i, j)) && St() == Released(old(St()), d, i, j)
    {
      TableEntry(mem, d, i, j);
      hide Pte, Pde;
      var f := mem[t].entries[j].frame;
      Kfree(f);
      mem := SetEntry(mem, t, j, Absent);
      place := place[f := Free];
    }

    // -------------------------------------------------------------- growing

    /** Takes a page, fills it and maps it at page `a`; as far as memory reaches. */
    method AddPage(d: Frame, a: nat, flags: nat, bytes: seq<Byte>) returns (res: Added)
      requires IsPgdir(d) && a < KB && Trans(mem, d, a) == Absent
      modifies this`mem, this`freelist, this`place
      ensures IsPgdir(d)
      ensures res == NoPage <==> old(freelist) == []
      ensures res == NoPage ==> St() == old(St())
      ensures res.NoTable? <==> |old(freelist)| == 1 && old(Pde(mem, d, a / NPTENTRIES)) == Absent
      ensures res.NoTable? ==> res.f == old(freelist)[0] && St() == InHand(old(St()), bytes)
      ensures res == Done ==>
                && old(freelist) != []
                && Mapped(InHand(old(St()), bytes), St(), d, a / NPTENTRIES, a % NPTENTRIES, old(freelist)[0], flags)
    {
      hide Has, Mapped, Trans, Pde;
      ghost var s := St();
      OkOf(s, d);
      var f := Kalloc();
      if f.None? {
        return NoPage;
      }
      TakeAndFill(s, bytes, d);
      mem := mem[f.value := Data(bytes)];
      assert St() == InHand(s, bytes);
      SameTrans(s, St(), d);
      SamePde(s, St(), d, a / NPTENTRIES);
      assert place[f.value] == Held;
      var mapped := MapPage(d, a, f.value, flags);
      res := if mapped == MapOk then Done else NoTable(f.value);
    }

    /** One round of growing, added to what has been grown since `s`. */
    method GrowBy(d: Frame, a: nat, flags: nat, bytes: seq<Byte>, ghost s: State, ghost lo: nat,
                  ghost fl: nat -> nat, ghost bs: nat -> seq<Byte>) returns (res: Added)
      requires Has(s, d) && lo <= a < KB && Grown(s, St(), d, lo, a, a - lo) && Trans(s.mem, d, a) == Absent
      requires Filled(s, St(), d, lo, a, fl, bs) && flags == fl(a) && bytes == bs(a)
      modifies this`mem, this`freelist, this`place
      ensures res == NoPage <==> old(freelist) == []
      ensures res == NoPage ==> St() == old(St())
      ensures res.NoTable? <==> |old(freelist)| == 1 && old(Pde(mem, d, a / NPTENTRIES)) == Absent
      ensures res.NoTable? ==> res.f == old(freelist)[0] && St() == InHand(old(St()), bytes)
      ensures res == Done ==> Grown(s, St(), d, lo, a + 1, a + 1 - lo) && Filled(s, St(), d, lo, a + 1, fl, bs)
    {
      hide Has, Mapped, Trans, Pde, Grown, Filled, Untouched, UsersKept, PageHolds;
      ghost var r := St();
      GrownDir(s, r, d, lo, a, a - lo);
      res := AddPage(d, a, flags, bytes);
      if res == Done {
        ghost var q := St();
        GrowUser(s, r, q, d, lo, a, a - lo, bytes, flags);
        GrownFilled(s, r, q, d, lo, a, flags, bytes, fl, bs);
      }
    }

    /** allocuvm(): either all pages up to the new size are there, new and zeroed, or no page is and
        all that may remain is some empty page tables; it fails exactly when memory does not
        suffice. */
    method Allocuvm(d: Frame, oldsz: nat, newsz: nat) returns (r: nat)
      requires IsPgdir(d)
      requires oldsz <= newsz < KERNBASE ==> Vacant(St(), d, Up(oldsz), Up(newsz))
      modifies this`mem, this`freelist, this`place
      ensures newsz >= KERNBASE ==> r == 0 && St() == old(St())
      ensures newsz < KERNBASE && newsz < oldsz ==> r == oldsz && St() == old(St())
      ensures oldsz <= newsz < KERNBASE ==>
                && r == (if Affordable(old(St()), d, Up(oldsz), Up(newsz)) then newsz else 0)
                && Allocated(old(St()), St(), d, Up(oldsz), Up(newsz))
    {
      hide Has, Trans, Pde, Grown, Restored, Dropped, Filled, AllocFlags, AllocBytes, Up, Affordable, Allocated, Vacant;
      if newsz >= KERNBASE {
        return 0;
      }
      if newsz < oldsz {
        return oldsz;
      }
      ghost var s := St();
      ghost var lo, hi := Up(oldsz), Up(newsz);
      UpOrder(oldsz, newsz);
      var a := Up(oldsz);
      GrownStart(s, d, lo);
      FilledNone(s, d, lo, AllocFlags(), AllocBytes());
      while a * PGSIZE < newsz
        invariant lo <= a <= hi
        invariant Grown(s, St(), d, lo, a, a - lo)
        invariant Filled(s, St(), d, lo, a, AllocFlags(), AllocBytes())
        decreases KB - a
      {
        UpIs(newsz, a);
        ghost var r0 := St();
        VacantAt(s, d, lo, hi, a);
        AllocIs(a);
        var res := GrowBy(d, a, PTE_W + PTE_U, Zero(), s, lo, AllocFlags(), AllocBytes());
        match res {
          case Done =>
          case NoPage =>
            OutOfPages(s, r0, d, lo, a, hi);
            var _ := TakeBackFrom(d, oldsz, newsz, s, r0, a);
            AllocFailed(s, St(), d, lo, hi);
            return 0;
          case NoTable(f) =>
            OutOfTables(s, r0, d, lo, a, hi);
            var _ := TakeBackFromHeld(d, oldsz, newsz, f, s, r0, a);
            AllocFailed(s, St(), d, lo, hi);
            return 0;
        }
        a := a + 1;
      }
      UpIs(newsz, a);
      assert a == hi;
      AllocDone(s, St(), d, lo, hi);
      r := newsz;
    }

    /** The first way out of allocuvm(). */
    method TakeBackFrom(d: Frame, oldsz: nat, newsz: nat, ghost s: State, ghost r: State, ghost a: nat) returns (z: nat)
      requires Has(s, d) && oldsz <= newsz < KERNBASE && Up(oldsz) <= a < Up(newsz) <= KB
      requires Grown(s, r, d, Up(oldsz), a, a - Up(oldsz)) && St() == r
      requires Vacant(s, d, Up(oldsz), Up(newsz))
      modifies this`mem, this`freelist, this`place
      ensures Restored(s, St(), d)
    {
      hide Has, Trans, Pde, Grown, Dropped, Up;
      GrownDir(s, r, d, Up(oldsz), a, a - Up(oldsz));
      UpLess(oldsz, newsz);
      z := Deallocuvm(d, newsz, oldsz);
      TakeBack(s, r, St(), d, Up(oldsz), a, Up(newsz), a - Up(oldsz));
    }

    /** The second way out of allocuvm(), with a page in hand. */
    method TakeBackFromHeld(d: Frame, oldsz: nat, newsz: nat, f: Frame, ghost s: State, ghost r: State, ghost a: nat) returns (z: nat)
      requires Has(s, d) && oldsz <= newsz < KERNBASE && Up(oldsz) <= a < Up(newsz) <= KB
      requires Grown(s, r, d, Up(oldsz), a, a - Up(oldsz)) && r.free != [] && f == r.free[0]
      requires St() == InHand(r, Zero())
      requires Vacant(s, d, Up(oldsz), Up(newsz))
      modifies this`mem, this`freelist, this`place
      ensures Restored(s, St(), d)
    {
      hide Has, Trans, Pde, Grown, Dropped, Up, InHand, GivenBack;
      GrownDir(s, r, d, Up(oldsz), a, a - Up(oldsz));
      TakeAndFill(r, Zero(), d);
      UpLess(oldsz, newsz);
      z := Deallocuvm(d, newsz, oldsz);
      TakeBackHeld(s, r, St(), d, Up(oldsz), a, Up(newsz), a - Up(oldsz), Zero());
      DroppedOk(InHand(r, Zero()), St(), d, Up(oldsz), Up(newsz));
      KfreeHeld(f);
    }

    // -------------------------------------------------------------- freeing an address space

    /** freevm(): every page of the address space is free afterwards; nothing else has changed. */
    method Freevm(d: Frame)
      requires IsPgdir(d)
      modifies this`mem, this`freelist, this`place
      ensures Erased(old(St()), St(), d)
    {
      hide Has, Dropped, Gone, Erased, Pde;
      ghost var s := St();
      UpIs(KERNBASE, 0);
      var _ := Deallocuvm(d, KERNBASE, 0);
      GoneStart(s, St(), d);
      var i := 0;
      while i < NPDENTRIES
        invariant 0 <= i <= NPDENTRIES && Gone(s, St(), d, i)
      {
        ghost var r := St();
        GoneDir(s, r, d, i);
        if mem[d].entries[i].Present? {
          var t := mem[d].entries[i].frame;
          GoneTable(s, r, d, i);
          Kfree(t);
          place := place[t := Free];
        } else {
          OkOf(s, d);
          GoneAbsent(s, r, d, i);
        }
        i := i + 1;
      }
      GoneDir(s, St(), d, NPDENTRIES);
      GoneEnd(s, St(), d);
      Kfree(d);
      place := place[d := Free];
    }

    // -------------------------------------------------------------- the kernel's part

    /** The loop of mappages(), from page `first` to page `last`. */
    method MapRun(d: Frame, first: nat, last: nat, phys: nat, perm: nat) returns (res: MapRet)
      requires IsPgdir(d) && KB <= first <= last < PAGES
      modifies this`mem, this`freelist, this`place
      ensures IsPgdir(d) && Untouched(old(St()), St(), d, {})
      ensures var p := FirstMapped(old(mem), d, first, last + 1);
              && res == (if |old(freelist)| < Missing(old(mem), d, first, p) then MapFull else if p <= last then Remap else MapOk)
              && (res == MapOk ==> RegionMapped(old(St()), St(), d, Region(first, last + 1, phys, perm)))
    {
      hide Has, Trans, Pde, Grown, Untouched, Missing, Covered, Mapped, FirstMapped;
      ghost var s := St();
      var a, f := first, phys;
      ghost var p := FirstMapped(s.mem, d, first, last + 1);
      GrownStart(s, d, first);
      while true
        invariant first <= a <= last && a <= p && f == phys + (a - first)
        invariant Grown(s, St(), d, first, a, 0)
        invariant forall v :: first <= v < a ==> Trans(mem, d, v) == Present(phys + (v - first), perm)
        decreases last - a
      {
        ghost var r := St();
        GrownTrans(s, r, d, first, a, 0);
        NoTableNoPage(mem, d, a);
        GrownFree(s, r, d, first, a, 0);
        res := MapPage(d, a, f, perm);
        if res == MapFull {
          ShortOfTables(s, r, d, first, a, p);
          return;
        }
        if res == Remap {
          return;
        }
        GrowKernel(s, r, St(), d, first, a, f, perm);
        if a == last {
          break;
        }
        a, f := a + 1, f + 1;
      }
      GrownTrans(s, St(), d, first, a + 1, 0);
      GrownFree(s, St(), d, first, a + 1, 0);
    }

    /** mappages(): maps the pages of a range of the kernel's half one after the other; it fails exactly
        when there is no memory for the page tables, and panics exactly when it gets as far as a page
        that is mapped already. */
    method Mappages(d: Frame, va: nat, size: nat, pa: nat, perm: nat) returns (res: MapRet)
      requires IsPgdir(d) && size > 0 && KERNBASE <= va && va + size <= 0x1_0000_0000
      modifies this`mem, this`freelist, this`place
      ensures IsPgdir(d) && Untouched(old(St()), St(), d, {})
      ensures var first, end := va / PGSIZE, (va + size - 1) / PGSIZE + 1;
              var p := FirstMapped(old(mem), d, first, end);
              && res == (if |old(freelist)| < Missing(old(mem), d, first, p) then MapFull else if p < end then Remap else MapOk)
              && (res == MapOk ==> RegionMapped(old(St()), St(), d, Region(first, end, pa / PGSIZE, perm)))
    {
      hide Has, Trans, Pde, Untouched, Missing, FirstMapped, RegionMapped;
      PageRange(va, size);
      res := MapRun(d, va / PGSIZE, (va + size - 1) / PGSIZE, pa / PGSIZE, perm);
    }

    /** setupkvm(): a new address space with the kernel's part, or none and nothing changed; it fails
        exactly when fewer than KPAGES pages are free. */
    method Setupkvm() returns (r: Option<Frame>)
      requires Valid() && KLINK < data < KTOP
      modifies this`mem, this`freelist, this`place
      ensures r.Some? <==> |old(freelist)| >= KPAGES
      ensures r.Some? ==> SpaceMade(old(St()), St(), r.value, data)
      ensures r.None? ==> Returned(old(St()), St(), {})
    {
      hide Ok, Trans, Pde, Grown, Untouched, Missing, KernelMapped, RegionMapped, SpaceMade, Returned, Empty, Erased;
      ghost var s := St();
      r := Kalloc();
      if r.None? {
        ReturnedSelf(s);
        return;
      }
      var d := r.value;
      MakeDir(s);
      mem := mem[d := Table(Zeros())];
      place := place[d := Dir];
      ghost var s1 := WithDir(s);
      assert St() == s1;
      KernelStart(s1, d, data);
      var kmap := Kmap(data);
      var k := 0;
      while k < |kmap|
        invariant 0 <= k <= 4 && KernelMapped(s1, St(), d, data, k)
        invariant k == 0 ==> St() == s1
      {
        ghost var r0 := St();
        var g := kmap[k];
        RegionReady(s1, r0, d, data, k);
        PageBytes(g);
        var mapped := Mappages(d, g.virt * PGSIZE, (g.end - g.virt) * PGSIZE, g.phys * PGSIZE, g.perm);
        if mapped != MapOk {
          RegionShort(s1, r0, d, data, k);
          BackToStart(s, r0, St(), data, k);
          ghost var r1 := St();
          Freevm(d);
          EraseReturns(s, r1, St(), d, {});
          return None;
        }
        RegionDone(s1, r0, St(), d, data, k);
        k := k + 1;
      }
      SpaceDone(s, St(), data);
      MadeCost(s, St(), d, data);
    }

    // -------------------------------------------------------------- copying

    /** copyuvm(): the child has the parent's pages, with their flags and contents, on pages that were
        free; the parent and everything else is as before. It succeeds exactly when all pages are there and
        CopyCost pages are free, and panics exactly when it gets as far as a page that is missing. When it
        fails everything is given back, except for one page in the case that memory ran out just before a
        page table. */
    method Copyuvm(d: Frame, sz: nat) returns (c: CopyRet, ghost left: set<Frame>)
      requires IsPgdir(d) && sz <= KERNBASE && KLINK < data < KTOP
      modifies this`mem, this`freelist, this`place
      ensures var n := Up(sz);
              var p := FirstAbsent(old(mem), d, 0, n);
              && (c.CopyFail? <==> |old(freelist)| < CopyCost(p))
              && (c.CopyPanic? <==> |old(freelist)| >= CopyCost(p) && p < n)
              && (c.CopyFail? ==> Returned(old(St()), St(), left) && |left| == if LeavesPage(|old(freelist)|, p) then 1 else 0)
      ensures c.CopyOk? ==> left == {} && Copied(old(St()), St(), d, c.child, Up(sz), data)
    {
      hide Has, Ok, Trans, Pde, Grown, Untouched, SpaceMade, Returned, Filled, Copied, Cost, Erased, LeavesPage, CopyFlags, CopyBytes, FirstAbsent;
      ghost var s := St();
      OkOf(s, d);
      left := {};
      ghost var n := Up(sz);
      ghost var p := FirstAbsent(s.mem, d, 0, n);
      var made := Setupkvm();
      if made.None? {
        TooFew(|s.free|, p);
        return CopyFail, left;
      }
      var e := made.value;
      ghost var s1 := St();
      CopyStart(s, s1, d, e, data);
      GrownStart(s1, e, 0);
      FilledNone(s1, e, 0, CopyFlags(s, d), CopyBytes(s, d));
      UpIs(sz, 0);
      var i := 0;
      while i * PGSIZE < sz
        invariant 0 <= i <= p <= n <= KB
        invariant Grown(s1, St(), e, 0, i, i)
        invariant Filled(s1, St(), e, 0, i, CopyFlags(s, d), CopyBytes(s, d))
        decreases KB - i
      {
        UpIs(sz, i);
        ghost var r := St();
        var page := ParentPage(d, i, s, s1, e);
        if page.None? {
          CopyReaches(s, s1, r, e, i, data);
          return CopyPanic, left;
        }
        CopyFree(s1, e, data, i, s);
        var res := GrowBy(e, i, page.value.0.flags, page.value.1, s1, 0, CopyFlags(s, d), CopyBytes(s, d));
        match res {
          case Done =>
          case NoPage =>
            CopyStops(s, s1, r, e, i, p, data);
            CopyUndo(s, s1, r, e, i, data);
            Freevm(e);
            EraseReturns(s, r, St(), e, {});
            return CopyFail, {};
          case NoTable(f) =>
            CopyStopsTable(s, s1, r, e, i, p, data);
            CopyUndoHeld(s, s1, r, e, i, data, page.value.1);
            ghost var h := St();
            Freevm(e);
            left := {f};
            EraseReturns(s, h, St(), e, left);
            return CopyFail, left;
        }
        i := i + 1;
      }
      UpIs(sz, i);
      CopyDone(s, s1, St(), d, e, n, data);
      c := CopyOk(e);
    }

    /** The parent's page table entry and the contents of its page. */
    method ParentPage(d: Frame, v: nat, ghost s: State, ghost s1: State, ghost e: Frame) returns (page: Option<(Entry, seq<Byte>)>)
      requires Has(s, d) && e != d && v < KB && Untouched(s, s1, e, {}) && Grown(s1, St(), e, 0, v, v)
      ensures page.None? <==> Trans(s.mem, d, v) == Absent
      ensures page.Some? ==>
                var (pte, bytes) := page.value;
                pte.Present? && pte.flags == CopyFlags(s, d)(v) && bytes == CopyBytes(s, d)(v)
    {
      hide Has, Pde, Pte, Untouched, Grown, Trans;
      var i, j := v / NPTENTRIES, v % NPTENTRIES;
      ghost var r := St();
      SeenFrom(s, s1, r, e, v);
      OkOf(r, e);
      OtherSpace(s, r, e, d, v, {});
      ParentTable(r, d, v);
      NoTableNoPage(mem, d, v);
      var pde := mem[d].entries[i];
      if !pde.Present? {
        return None;
      }
      var pte := mem[pde.frame].entries[j];
      if !pte.Present? {
        return None;
      }
      ParentTables(s, r, d, v);
      page := Some((pte, mem[pte.frame].bytes));
    }
  }

  /** It does happen: with 133 pages, a process of one page leaves 66 of them free, and copying it fails
      and loses a page. `s` is the state before the copy. */
  method LeftPage() returns (m: Memory, d: Frame, ghost s: State, c: CopyRet, ghost left: set<Frame>)
    ensures Has(s, d) && Trans(s.mem, d, 0).Present? && |s.free| == 66
    ensures c == CopyFail && Returned(s, m.St(), left) && |left| == 1
  {
    hide Has, Ok, Trans, Pde, Grown, Untouched, SpaceMade, Returned, Filled, Copied, Cost, Allocated, Vacant, Affordable;
    m := new Memory(1, 134, KLINK + 1);
    ghost var s0 := m.St();
    var made := m.Setupkvm();
    d := made.value;
    ghost var s1 := m.St();
    OneVacant(s0, s1, d, m.data);
    var _ := m.Allocuvm(d, 0, PGSIZE);
    s := m.St();
    OnePage(s0, s1, s, d, m.data);
    c, left := m.Copyuvm(d, PGSIZE);
  }

  lemma {:induction false} OneVacant(s0: State, s1: State, d: Frame, data: nat)
    requires SpaceMade(s0, s1, d, data) && KLINK < data < KTOP && |s0.free| == 133
    ensures Has(s1, d) && Up(0) == 0 && Up(PGSIZE) == 1 && Vacant(s1, d, 0, 1) && Affordable(s1, d, 0, 1) && |s1.free| == 68
    ensures Cost(s1, d, 0, 1) == 2
  {
    hide Trans, Pde, Untouched, Has, Cost;
    NewSpaceCost(s1, d, 1);
    CopyFree(s1, d, data, 0, s0);
  }

  lemma {:induction false} OnePage(s0: State, s1: State, s2: State, d: Frame, data: nat)
    requires Allocated(s1, s2, d, 0, 1) && Affordable(s1, d, 0, 1) && Cost(s1, d, 0, 1) == 2 && |s1.free| == 68
    ensures Has(s2, d) && |s2.free| == 66 && LeavesPage(66, 1) && CopyCost(1) == 67
    ensures forall v :: 0 <= v < 1 ==> Trans(s2.mem, d, v).Present?
  {
    hide Trans, Pde, Untouched, Has, Cost, AllocFlags, AllocBytes;
    Afforded(s1, s2, d, 0, 1);
    GrownDir(s1, s2, d, 0, 1, 1);
  }

  /** `c` is a copy of the address space `d` of `s`, with its first `n` pages. */
  ghost predicate Copied(s: State, r: State, d: Frame, c: Frame, n: nat, data: nat) {
    && c in s.place && s.place[c] == Free && Has(r, c) && Untouched(s, r, c, {})
    && Filled(s, r, c, 0, n, CopyFlags(s, d), CopyBytes(s, d))
    && (forall v :: n <= v < PAGES ==> Trans(r.mem, c, v) == KernelEntry(v, data))
    && |s.free| >= CopyCost(n) && r.free == s.free[CopyCost(n)..]
  }

  lemma {:induction false} TooFew(free: nat, n: nat)
    requires free < KPAGES
    ensures free < CopyCost(n) && !LeavesPage(free, n)
  {
  }

  lemma {:induction false} CopyStart(s: State, r: State, d: Frame, e: Frame, data: nat)
    requires Has(s, d) && SpaceMade(s, r, e, data)
    ensures e != d && e in s.place && s.place[e] == Free && Has(r, e) && Untouched(s, r, e, {})
  {
  }

  lemma {:induction false} FilledNone(s: State, e: Frame, lo: nat, fl: nat -> nat, bs: nat -> seq<Byte>)
    ensures Filled(s, s, e, lo, lo, fl, bs)
  {
  }

  /** User pages of a new space are unmapped. */
  lemma {:induction false} CopyFree(s1: State, e: Frame, data: nat, v: nat, s: State)
    requires SpaceMade(s, s1, e, data) && v < KB && KLINK < data < KTOP
    ensures Trans(s1.mem, e, v) == Absent
  {
    hide Trans, Untouched, Has;
  }

  lemma {:induction false} SeenFrom(s: State, s1: State, r: State, e: Frame, a: nat)
    requires Untouched(s, s1, e, {}) && Grown(s1, r, e, 0, a, a)
    ensures Untouched(s, r, e, {}) && Has(r, e)
  {
    hide Grown, Untouched, Has;
    GrownTrans(s1, r, e, 0, a, a);
    var none: set<Frame> := {};
    assert none + none == none;
    UntouchedTrans(s, s1, r, e, none, none);
  }

  lemma {:induction false} ParentTable(r: State, d: Frame, v: nat)
    requires Ok(r) && IsDir(r.place, d) && v < KB
    ensures var i, j := v / NPTENTRIES, v % NPTENTRIES;
            && TableAt(r.mem, d) && r.mem[d].entries[i] == Pde(r.mem, d, i)
            && (r.mem[d].entries[i].Present? ==>
                  var t := r.mem[d].entries[i].frame; TableAt(r.mem, t) && r.mem[t].entries[j] == Trans(r.mem, d, v))
  {
    DirTable(r, d);
    if Pde(r.mem, d, v / NPTENTRIES).Present? {
      TableOf(r.mem, r.free, r.place, d, v / NPTENTRIES);
    }
  }

  /** There was memory for the pages copied so far. */
  lemma {:induction false} CopyReaches(s: State, s1: State, r: State, e: Frame, i: nat, data: nat)
    requires SpaceMade(s, s1, e, data) && Grown(s1, r, e, 0, i, i) && i <= KB
    ensures |s.free| >= CopyCost(i)
  {
    hide Grown, Pde, Trans, Untouched, Has, Cost, CopyCost;
    Afforded(s1, r, e, 0, i);
    NewSpaceCost(s1, e, i);
    CostIs(i);
  }

  lemma {:induction false} ParentTables(s: State, r: State, d: Frame, v: nat)
    requires Has(s, d) && Ok(r) && IsDir(r.place, d) && v < KB && Trans(s.mem, d, v).Present?
    requires Trans(r.mem, d, v) == Trans(s.mem, d, v)
    requires var f := Trans(s.mem, d, v).frame; f in s.mem && s.mem[f].Data? && f in r.mem && r.mem[f] == s.mem[f]
    ensures var i, j := v / NPTENTRIES, v % NPTENTRIES;
            && TableAt(r.mem, d) && r.mem[d].entries[i].Present?
            && var t := r.mem[d].entries[i].frame;
            && TableAt(r.mem, t) && r.mem[t].entries[j] == Trans(s.mem, d, v)
    ensures var e := Trans(s.mem, d, v); e.flags == CopyFlags(s, d)(v) && s.mem[e.frame].bytes == CopyBytes(s, d)(v)
  {
    DirTable(r, d);
    TableOf(r.mem, r.free, r.place, d, v / NPTENTRIES);
  }

  lemma {:induction false} CopyStops(s: State, s1: State, r: State, e: Frame, i: nat, n: nat, data: nat)
    requires SpaceMade(s, s1, e, data) && Grown(s1, r, e, 0, i, i) && i < n <= KB && r.free == []
    ensures |s.free| < CopyCost(n) && !LeavesPage(|s.free|, n)
  {
    hide Grown, Pde, Trans, Untouched, Has, Cost, LeavesPage, CopyCost;
    Afforded(s1, r, e, 0, i);
    NewSpaceCost(s1, e, i);
    CostIs(i);
    StopsForPage(|s.free|, i, n);
  }

  lemma {:induction false} CopyStopsTable(s: State, s1: State, r: State, e: Frame, i: nat, n: nat, data: nat)
    requires SpaceMade(s, s1, e, data) && Grown(s1, r, e, 0, i, i) && i < n <= KB && |r.free| == 1
    requires Pde(r.mem, e, i / NPTENTRIES) == Absent
    ensures |s.free| < CopyCost(n) && LeavesPage(|s.free|, n)
  {
    hide Grown, Pde, Trans, Untouched, Has, Cost, CopyCost;
    OutOfTables(s1, r, e, 0, i, n);
    NewSpaceCost(s1, e, i);
    CostIs(i);
    hide LeavesPage;
    StopsForTable(|s.free|, i, n);
    LeavesLess(|s.free|, n);
  }

  lemma {:induction false} CostIs(n: nat)
    ensures CopyCost(n) == KPAGES + (n + (n + NPTENTRIES - 1) / NPTENTRIES)
  {
  }

  lemma {:induction false} LeavesLess(free: nat, n: nat)
    requires LeavesPage(free, n)
    ensures free < CopyCost(n)
  {
  }

  lemma {:induction false} CopyUndo(s: State, s1: State, r: State, e: Frame, i: nat, data: nat)
    requires SpaceMade(s, s1, e, data) && Grown(s1, r, e, 0, i, i)
    ensures Untouched(s, r, e, {}) && Has(r, e)
  {
    hide Grown, Trans, Pde, Has, Untouched;
    SeenFrom(s, s1, r, e, i);
  }

  lemma {:induction false} CopyUndoHeld(s: State, s1: State, r: State, e: Frame, i: nat, data: nat, bytes: seq<Byte>)
    requires Ok(s) && SpaceMade(s, s1, e, data) && Grown(s1, r, e, 0, i, i) && r.free != []
    ensures var f := r.free[0];
            && f in s.place && s.place[f] == Free && InHand(r, bytes).place[f] == Held
            && Untouched(s, InHand(r, bytes), e, {f}) && Has(InHand(r, bytes), e)
  {
    hide Ok, Grown, Trans, Pde, Untouched, SameTables, SameTranslation;
    SeenFrom(s, s1, r, e, i);
    TakeAndFill(r, bytes, e);
    var f := r.free[0];
    FreeBefore(s, r, e, f);
    UntouchedTrans(s, r, InHand(r, bytes), e, {}, {f});
    assert {} + {f} == {f};
  }

  lemma {:induction false} CopyDone(s: State, s1: State, r: State, d: Frame, e: Frame, n: nat, data: nat)
    requires Ok(s) && SpaceMade(s, s1, e, data) && Grown(s1, r, e, 0, n, n) && n <= KB
    requires Filled(s1, r, e, 0, n, CopyFlags(s, d), CopyBytes(s, d))
    ensures Copied(s, r, d, e, n, data) && |s.free| >= CopyCost(n)
  {
    hide Ok, Grown, Trans, Pde, Untouched, Has, Filled, CopyFlags, CopyBytes, Cost, CopyCost;
    SeenFrom(s, s1, r, e, n);
    FilledBefore(s, s1, r, e, n, CopyFlags(s, d), CopyBytes(s, d));
    GrownTrans(s1, r, e, 0, n, n);
    Afforded(s1, r, e, 0, n);
    NewSpaceCost(s1, e, n);
    CostIs(n);
  }

  lemma {:induction false} GoneDir(s: State, r: State, d: Frame, i: nat)
    requires Gone(s, r, d, i)
    ensures TableAt(r.mem, d)
    ensures forall k :: 0 <= k < NPDENTRIES ==> r.mem[d].entries[k] == Pde(r.mem, d, k)
  {
  }

  lemma {:induction false} ShortOfTables(s: State, r: State, d: Frame, lo: nat, a: nat, hi: nat)
    requires Grown(s, r, d, lo, a, 0) && lo <= a < hi <= PAGES && r.free == [] && Pde(r.mem, d, a / NPTENTRIES) == Absent
    ensures |s.free| < Missing(s.mem, d, lo, hi)
  {
    hide Grown, Pde, Missing, Covered;
    assert a / NPTENTRIES < NPDENTRIES;
    GrownFree(s, r, d, lo, a, 0);
    GrownPde(s, r, d, lo, a, 0, a / NPTENTRIES);
    CoveredNext(s.mem, d, lo, a);
    MissingGrows(s.mem, d, lo, a + 1, hi);
  }

  lemma {:induction false} ReturnedSelf(s: State)
    requires Ok(s)
    ensures Returned(s, s, {})
  {
  }

  lemma {:induction false} KernelStart(s: State, d: Frame, data: nat)
    requires Empty(s, d)
    ensures KernelMapped(s, s, d, data, 0)
  {
    GrownStart(s, d, KB);
    hide Grown;
  }

  /** The next region is not mapped yet. */
  lemma {:induction false} RegionReady(s: State, r: State, d: Frame, data: nat, k: nat)
    requires Empty(s, d) && KLINK < data < KTOP && k <= 3 && KernelMapped(s, r, d, data, k)
    ensures Has(r, d) && Untouched(s, r, d, {})
    ensures var g := Kmap(data)[k];
            && KB <= g.virt < g.end <= PAGES
            && forall v :: g.virt <= v < g.end ==> Trans(r.mem, d, v) == Absent
  {
    hide Grown, Trans, Untouched, Has;
    EmptyTrans(s, d);
    GrownTrans(s, r, d, KB, Top(data, k), 0);
  }

  lemma {:induction false} PageBytes(g: Region)
    requires g.virt < g.end <= PAGES
    ensures var va, size := g.virt * PGSIZE, (g.end - g.virt) * PGSIZE;
            va / PGSIZE == g.virt && (va + size - 1) / PGSIZE + 1 == g.end && g.phys * PGSIZE / PGSIZE == g.phys
  {
  }

  lemma {:induction false} RegionDone(s: State, r: State, q: State, d: Frame, data: nat, k: nat)
    requires Empty(s, d) && KLINK < data < KTOP && k <= 3
    requires KernelMapped(s, r, d, data, k) && RegionMapped(r, q, d, Kmap(data)[k])
    requires k == 0 ==> r == s
    ensures KernelMapped(s, q, d, data, k + 1)
  {
    hide KernelMapped, RegionMapped, Empty;
    if k == 0 {
      FirstRegion(s, q, d, data);
    } else if k <= 2 {
      NextRegion(s, r, q, d, data, k);
    } else {
      LastRegion(s, r, q, d, data);
    }
  }

  lemma {:induction false} BackToStart(s: State, r: State, q: State, data: nat, k: nat)
    requires Ok(s) && s.free != [] && Untouched(WithDir(s), r, s.free[0], {}) && Untouched(r, q, s.free[0], {})
    ensures Untouched(s, q, s.free[0], {})
  {
    MakeDir(s);
    hide Untouched, Ok;
    var none: set<Frame> := {};
    assert none + none == none;
    UntouchedTrans(s, WithDir(s), r, s.free[0], none, none);
    UntouchedTrans(s, r, q, s.free[0], none, none);
  }

  lemma {:induction false} MadeCost(s: State, r: State, d: Frame, data: nat)
    requires SpaceMade(s, r, d, data)
    ensures |s.free| >= KPAGES
  {
  }

  /** No page from `lo` below `hi` is mapped. */
  ghost predicate Vacant(s: State, d: Frame, lo: nat, hi: nat) {
    forall v :: lo <= v < hi ==> Trans(s.mem, d, v) == Absent
  }

  lemma {:induction false} VacantAt(s: State, d: Frame, lo: nat, hi: nat, v: nat)
    requires Vacant(s, d, lo, hi) && lo <= v < hi
    ensures Trans(s.mem, d, v) == Absent
  {
    hide Trans;
  }

  /** There is memory for the pages from `lo` below `hi` and the page tables they need. */
  ghost predicate Affordable(s: State, d: Frame, lo: nat, hi: nat) {
    lo <= hi && |s.free| >= Cost(s, d, lo, hi)
  }

  /** All pages from `lo` below `hi` are there, new and zeroed, if there was memory for them; otherwise
      the user pages are as before. */
  ghost predicate Allocated(s: State, r: State, d: Frame, lo: nat, hi: nat) {
    && lo <= hi
    && (Affordable(s, d, lo, hi) ==>
          Grown(s, r, d, lo, hi, hi - lo) && Filled(s, r, d, lo, hi, AllocFlags(), AllocBytes()))
    && (!Affordable(s, d, lo, hi) ==> Restored(s, r, d))
  }

  lemma {:induction false} AllocFailed(s: State, r: State, d: Frame, lo: nat, hi: nat)
    requires lo <= hi && |s.free| < Cost(s, d, lo, hi) && Restored(s, r, d)
    ensures !Affordable(s, d, lo, hi) && Allocated(s, r, d, lo, hi)
  {
    hide Restored, Cost;
  }

  lemma {:induction false} AllocDone(s: State, r: State, d: Frame, lo: nat, hi: nat)
    requires lo <= hi && Grown(s, r, d, lo, hi, hi - lo) && Filled(s, r, d, lo, hi, AllocFlags(), AllocBytes())
    ensures Affordable(s, d, lo, hi) && Allocated(s, r, d, lo, hi)
  {
    hide Grown, Filled, Cost;
    Afforded(s, r, d, lo, hi);
  }

  /** How far adding a page got. */
  datatype Added = Done | NoPage | NoTable(f: Frame)

  lemma {:induction false} OkOf(s: State, d: Frame)
    requires Has(s, d)
    ensures Ok(s)
  {
  }

  lemma {:induction false} DroppedOk(s: State, r: State, d: Frame, lo: nat, hi: nat)
    requires Dropped(s, r, d, lo, hi)
    ensures Ok(r)
  {
  }

  lemma {:induction false} SamePde(s: State, r: State, d: Frame, i: nat)
    requires SameTables(s, r, d)
    ensures Pde(r.mem, d, i) == Pde(s.mem, d, i)
  {
  }

  lemma {:induction false} UpOrder(oldsz: nat, newsz: nat)
    requires oldsz <= newsz < KERNBASE
    ensures Up(oldsz) <= Up(newsz) <= KB
  {
  }

  lemma {:induction false} AllocIs(v: nat)
    ensures AllocFlags()(v) == PTE_W + PTE_U && AllocBytes()(v) == Zero()
  {
  }

  lemma {:induction false} UpLess(oldsz: nat, newsz: nat)
    requires Up(oldsz) < Up(newsz)
    ensures oldsz < newsz
  {
  }

  lemma {:induction false} GrownDir(s: State, r: State, d: Frame, lo: nat, a: nat, n: nat)
    requires Grown(s, r, d, lo, a, n) && lo <= a
    ensures Has(r, d)
    ensures forall v :: a <= v < PAGES ==> Trans(r.mem, d, v) == Trans(s.mem, d, v)
  {
    hide Sound, Trans, Covered, Missing, Pde;
  }

  lemma {:induction false} GrownFilled(s: State, r: State, q: State, d: Frame, lo: nat, a: nat, flags: nat, bytes: seq<Byte>, fl: nat -> nat, bs: nat -> seq<Byte>)
    requires Has(s, d) && Has(r, d) && lo <= a < KB && r.free != [] && Grown(s, q, d, lo, a + 1, a + 1 - lo)
    requires Grown(s, r, d, lo, a, a - lo)
    requires Filled(s, r, d, lo, a, fl, bs) && flags == fl(a) && bytes == bs(a)
    requires Trans(q.mem, d, a) == Present(r.free[0], flags) && r.free[0] in q.mem && q.mem[r.free[0]] == Data(bytes)
    requires r.free[0] in s.place && s.place[r.free[0]] == Free && UsersKept(r, q, d)
    requires forall v :: lo <= v < a ==> Trans(q.mem, d, v) == Trans(r.mem, d, v)
    ensures Filled(s, q, d, lo, a + 1, fl, bs)
  {
    hide Has, Trans, Grown, UsersKept, Filled;
    GrownKeys(s, r, d, lo, a, a - lo);
    GrownKeys(s, q, d, lo, a + 1, a + 1 - lo);
    GrownDir(s, q, d, lo, a + 1, a + 1 - lo);
    FilledStep(s, r, q, d, lo, a, fl, bs);
  }

  lemma {:induction false} WalkKeeps(s: State, r: State, d: Frame, i: nat, j: nat, f: Frame)
    requires Has(s, d) && i < NPDENTRIES && j < NPTENTRIES
    requires if Pde(s.mem, d, i).Present? then r == s else TableAdded(s, r, d, i)
    ensures Walked(s, r, d, i) && Has(r, d) && Pte(r.mem, d, i, j) == Pte(s.mem, d, i, j)
    ensures f in s.place && s.place[f] == Held ==> f in r.place && r.place[f] == Held
  {
    hide Pte, Sound, Pde;
  }

  lemma {:induction false} MappedDir(s: State, r: State, d: Frame, i: nat, j: nat, f: Frame, flags: nat)
    requires Mapped(s, r, d, i, j, f, flags)
    ensures Has(r, d)
  {
  }

  lemma {:induction false} StillAbsent(s: State, r: State, d: Frame, lo: nat, a: nat)
    requires Dropped(s, r, d, lo, a) && a < PAGES
    ensures Trans(s.mem, d, a) == Trans(r.mem, d, a)
  {
    hide Trans;
  }
}
