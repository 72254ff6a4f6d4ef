/** Whole-range facts about address spaces: new pages and their contents, taking a failed growth
    back, and the kernel's part of every address space. */
module VmRanges {

  import opened Blocks
  import opened Paging
  import opened VmSteps

  const PGSIZE := 4096
  const KERNBASE := 0x8000_0000

  /** Page numbers of KERNBASE, KERNLINK, P2V(PHYSTOP) and DEVSPACE. */
  const KB := 0x80000
  const KLINK := 0x80100
  const KTOP := 0x8E000
  const DEV := 0xFE000

  /** PGROUNDUP, as a page number. */
  function Up(sz: nat): (v: nat) {
    (sz + PGSIZE - 1) / PGSIZE
  }

  lemma {:induction false} UpIs(sz: nat, a: nat)
    ensures a * PGSIZE < sz <==> a < Up(sz)
    ensures sz <= KERNBASE ==> Up(sz) <= KB
  {
  }

  // ---------------------------------------------------------------- new pages

  /** The pages from `lo` below `a` have been mapped on pages free in `s`, with the given flags and
      contents. */
  ghost predicate Filled(s: State, r: State, d: Frame, lo: nat, a: nat, flags: nat -> nat, bytes: nat -> seq<Byte>) {
    forall v :: lo <= v < a ==> PageHolds(s, r, Trans(r.mem, d, v), flags(v), bytes(v))
  }

  ghost predicate PageHolds(s: State, r: State, e: Entry, flags: nat, bytes: seq<Byte>) {
    && e.Present? && e.flags == flags && e.frame in s.place && s.place[e.frame] == Free
    && e.frame in r.mem && r.mem[e.frame] == Data(bytes)
  }

  lemma {:induction false} UserAt(r: State, d: Frame, v: nat)
    requires Has(r, d) && v < KB && Trans(r.mem, d, v).Present?
    ensures var f := Trans(r.mem, d, v).frame; f in r.place && r.place[f].User? && r.place[f].d == d && f in r.mem
  {
    UserFrame(r, d, v / NPTENTRIES, v % NPTENTRIES);
  }

  lemma {:induction false} FilledStep(s: State, r: State, q: State, d: Frame, lo: nat, a: nat, flags: nat -> nat, bytes: nat -> seq<Byte>)
    requires Has(r, d) && Has(q, d) && Filled(s, r, d, lo, a, flags, bytes) && lo <= a < KB
    requires r.mem.Keys == q.mem.Keys == r.place.Keys == q.place.Keys
    requires UsersKept(r, q, d) && forall v :: lo <= v < a ==> Trans(q.mem, d, v) == Trans(r.mem, d, v)
    requires PageHolds(s, q, Trans(q.mem, d, a), flags(a), bytes(a))
    ensures Filled(s, q, d, lo, a + 1, flags, bytes)
  {
    hide Sound, Trans;
    forall v | lo <= v < a + 1
      ensures PageHolds(s, q, Trans(q.mem, d, v), flags(v), bytes(v))
    {
      if v < a {
        assert PageHolds(s, r, Trans(r.mem, d, v), flags(v), bytes(v));
        UserAt(r, d, v);
      }
    }
  }

  /** What growing from `lo` to `hi` costs. */
  ghost function Cost(s: State, d: Frame, lo: nat, hi: nat): (n: nat)
    requires lo <= hi
  {
    hi - lo + Missing(s.mem, d, lo, hi)
  }

  /** Growth that stops for want of a page could not have succeeded. */
  lemma {:induction false} OutOfPages(s: State, r: State, d: Frame, lo: nat, a: nat, hi: nat)
    requires lo <= a < hi && Grown(s, r, d, lo, a, a - lo) && r.free == []
    ensures |s.free| < Cost(s, d, lo, hi)
  {
    hide Sound, Trans, Covered, Untouched, UsersKept, Missing;
    MissingGrows(s.mem, d, lo, a, hi);
  }

  /** Nor could growth that stops for want of a page table, one page being in hand. */
  lemma {:induction false} OutOfTables(s: State, r: State, d: Frame, lo: nat, a: nat, hi: nat)
    requires lo <= a < hi <= PAGES && Grown(s, r, d, lo, a, a - lo) && |r.free| == 1
    requires Pde(r.mem, d, a / NPTENTRIES) == Absent
    ensures |s.free| < Cost(s, d, lo, hi)
    ensures |s.free| == Cost(s, d, lo, a) + 1
    ensures a == lo || a % NPTENTRIES == 0
  {
    hide Sound, Trans, Untouched, UsersKept, Missing, Pde;
    assert a / NPTENTRIES < NPDENTRIES;
    assert !Covered(s.mem, d, lo, a, a / NPTENTRIES);
    CoveredNext(s.mem, d, lo, a);
    hide Covered;
    MissingGrows(s.mem, d, lo, a + 1, hi);
  }

  lemma {:induction false} Afforded(s: State, r: State, d: Frame, lo: nat, a: nat)
    requires lo <= a && Grown(s, r, d, lo, a, a - lo)
    ensures |s.free| >= Cost(s, d, lo, a) && r.free == s.free[Cost(s, d, lo, a)..]
  {
    hide Sound, Trans, Covered, Untouched, UsersKept, Missing;
  }

  // ---------------------------------------------------------------- taking growth back

  lemma {:induction false} DroppedUntouched(r: State, q: State, d: Frame, lo: nat, hi: nat)
    requires Dropped(r, q, d, lo, hi)
    ensures Untouched(r, q, d, {})
  {
    hide Sound, Trans, Pde, Stack;
  }

  /** The user pages of `d`, and everything outside, are as they were. */
  ghost predicate Restored(s: State, q: State, d: Frame) {
    && Has(q, d) && Untouched(s, q, d, {}) && UsersKept(s, q, d)
    && forall v :: 0 <= v < PAGES ==> Trans(q.mem, d, v) == Trans(s.mem, d, v)
  }

  lemma {:induction false} NotInRange(s: State, d: Frame, lo: nat, hi: nat, f: Frame)
    requires Has(s, d) && (forall v :: lo <= v < hi ==> Trans(s.mem, d, v) == Absent)
    requires f in s.place && s.place[f].User? && s.place[f].d == d
    ensures !InRange(s.place[f], d, lo, hi)
  {
    assert FrameOk(s.mem, s.free, s.place, f);
    TransAt(s.mem, d, s.place[f].i, s.place[f].j);
    hide Trans, Pte;
    assert Trans(s.mem, d, s.place[f].i * NPTENTRIES + s.place[f].j).Present?;
  }

  lemma {:induction false} DroppedUsers(s: State, r: State, q: State, d: Frame, lo: nat, hi: nat)
    requires Has(s, d) && (forall v :: lo <= v < hi ==> Trans(s.mem, d, v) == Absent)
    requires UsersKept(s, r, d) && s.mem.Keys == r.mem.Keys == s.place.Keys == r.place.Keys
    requires DroppedMem(r, q, d, lo, hi) && q.place == FreedPlaces(r.place, d, lo, hi)
    ensures UsersKept(s, q, d)
  {
    forall f | f in s.place && s.place[f].User? && s.place[f].d == d
      ensures q.place[f] == s.place[f] && q.mem[f] == s.mem[f]
    {
      NotInRange(s, d, lo, hi, f);
      hide Sound, Trans;
      assert r.place[f] == s.place[f];
    }
  }

  lemma {:induction false} TakeBack(s: State, r: State, q: State, d: Frame, lo: nat, a: nat, hi: nat, n: nat)
    requires Has(s, d) && Grown(s, r, d, lo, a, n) && Dropped(r, q, d, lo, hi) && lo <= a <= hi <= PAGES
    requires forall v :: lo <= v < hi ==> Trans(s.mem, d, v) == Absent
    ensures Restored(s, q, d)
  {
    hide Sound, Pde, Missing, Covered, Stack, Untouched, UsersKept, FreedPlaces, DroppedMem, Trans;
    GrownKeys(s, r, d, lo, a, n);
    DroppedUntouched(r, q, d, lo, hi);
    var none: set<Frame> := {};
    assert none + none == none;
    UntouchedTrans(s, r, q, d, none, none);
    DroppedUsers(s, r, q, d, lo, hi);
    hide Has;
    assert forall v :: 0 <= v < PAGES ==> Trans(q.mem, d, v) == Trans(s.mem, d, v);
  }

  /** A page taken and given back again. */
  ghost function GivenBack(q: State, f: Frame): (w: State) {
    State(q.mem[f := Data(Junk())], [f] + q.free, q.place[f := Free])
  }

  lemma {:induction false} GiveBack(q: State, d: Frame, f: Frame)
    requires Has(q, d) && f in q.place && q.place[f] == Held
    ensures Has(GivenBack(q, f), d) && SameTranslation(q, GivenBack(q, f), d)
  {
    Give(q.mem, q.free, q.place, f, Junk());
    ReleaseTrans(q.mem, q.free, q.place, GivenBack(q, f).mem, d, f);
  }

  lemma {:induction false} SameTrans(s: State, r: State, d: Frame)
    requires SameTranslation(s, r, d)
    ensures forall v :: 0 <= v < PAGES ==> Trans(r.mem, d, v) == Trans(s.mem, d, v)
  {
    hide Pte;
  }

  /** The same when a page had been taken for the next mapping, which failed. */
  lemma {:induction false} TakeBackHeld(s: State, r: State, q: State, d: Frame, lo: nat, a: nat, hi: nat, n: nat, bytes: seq<Byte>)
    requires Has(s, d) && Grown(s, r, d, lo, a, n) && lo <= a <= hi <= PAGES && r.free != []
    requires Dropped(InHand(r, bytes), q, d, lo, hi)
    requires forall v :: lo <= v < hi ==> Trans(s.mem, d, v) == Absent
    ensures r.free[0] in q.place && q.place[r.free[0]] == Held
    ensures Restored(s, GivenBack(q, r.free[0]), d)
  {
    var f := r.free[0];
    var h := InHand(r, bytes);
    TakeAndFill(r, bytes, d);
    FreshPage(s, r, d, lo, a, n);
    GrownKeys(s, r, d, lo, a, n);
    DroppedUntouched(h, q, d, lo, hi);
    SameTrans(r, h, d);
    HandUsers(s, r, d, bytes);
    assert q.place[f] == Held by {
      hide Sound, Pde, Missing, Covered, Stack, Untouched, UsersKept, DroppedMem, Trans;
    }
    hide Sound, Pde, Missing, Covered, Stack, UsersKept, FreedPlaces, DroppedMem, Trans;
    DroppedUsers(s, h, q, d, lo, hi);
    GiveBack(q, d, f);
    SameTrans(q, GivenBack(q, f), d);
    hide SameTranslation, DroppedTrans;
    BackUntouched(s, r, h, q, d, f);
    BackUsers(s, q, d, f);
    assert forall v :: 0 <= v < PAGES ==> Trans(q.mem, d, v) == Trans(s.mem, d, v) by {
      BackTrans(s, r, h, q, d, lo, a, hi);
    }
  }

  lemma {:induction false} HandUsers(s: State, r: State, d: Frame, bytes: seq<Byte>)
    requires UsersKept(s, r, d) && s.mem.Keys == r.mem.Keys == s.place.Keys == r.place.Keys
    requires r.free != [] && r.free[0] in r.place && r.place[r.free[0]] == Free
    ensures UsersKept(s, InHand(r, bytes), d)
    ensures InHand(r, bytes).mem.Keys == InHand(r, bytes).place.Keys == s.place.Keys
  {
  }

  lemma {:induction false} BackTrans(s: State, r: State, h: State, q: State, d: Frame, lo: nat, a: nat, hi: nat)
    requires lo <= a <= hi && (forall v :: lo <= v < hi ==> Trans(s.mem, d, v) == Absent)
    requires forall v :: 0 <= v < PAGES && !(lo <= v < a) ==> Trans(r.mem, d, v) == Trans(s.mem, d, v)
    requires forall v :: 0 <= v < PAGES ==> Trans(h.mem, d, v) == Trans(r.mem, d, v)
    requires DroppedTrans(h, q, d, lo, hi)
    ensures forall v :: 0 <= v < PAGES ==> Trans(q.mem, d, v) == Trans(s.mem, d, v)
  {
    hide Trans;
  }

  lemma {:induction false} BackUntouched(s: State, r: State, h: State, q: State, d: Frame, f: Frame)
    requires Untouched(s, r, d, {}) && Untouched(r, h, d, {f}) && Untouched(h, q, d, {})
    requires f in s.place && s.place[f] == Free
    ensures Untouched(s, GivenBack(q, f), d, {})
  {
    UntouchedTrans(s, r, h, d, {}, {f});
    UntouchedTrans(s, h, q, d, {} + {f}, {});
    var w := GivenBack(q, f);
    assert {} + {f} + {} == {f};
    assert Untouched(s, q, d, {f});
  }

  lemma {:induction false} BackUsers(s: State, q: State, d: Frame, f: Frame)
    requires UsersKept(s, q, d) && f in s.place && s.place[f] == Free
    requires s.mem.Keys == q.mem.Keys == s.place.Keys == q.place.Keys
    ensures UsersKept(s, GivenBack(q, f), d)
  {
    var w := GivenBack(q, f);
    forall g | g in s.place && s.place[g].User? && s.place[g].d == d
      ensures w.place[g] == s.place[g] && w.mem[g] == s.mem[g]
    {
      assert g != f;
    }
  }

  // ---------------------------------------------------------------- the kernel's part

  /** One entry of kmap: pages from `virt` below `end`, mapped from `phys` on. */
  datatype Region = Region(virt: nat, end: nat, phys: Frame, perm: nat)

  function Kmap(data: nat): (rs: seq<Region>)
    requires KLINK < data < KTOP
    ensures |rs| == 4
  {
    [Region(KB, KLINK, 0, PTE_W),
     Region(KLINK, data, 0x100, 0),
     Region(data, KTOP, data - KB, PTE_W),
     Region(DEV, PAGES, DEV, PTE_W)]
  }

  /** What the kernel maps at page `v`: physical memory at KERNBASE, its text read-only, and the
      devices one to one. */
  function KernelEntry(v: nat, data: nat): (e: Entry) {
    if KLINK <= v < data then Present(v - KB, 0)
    else if KB <= v < KTOP then Present(v - KB, PTE_W)
    else if DEV <= v then Present(v, PTE_W)
    else Absent
  }

  /** Pages needed for the kernel's part: a directory and 64 page tables. */
  const KPAGES := 65

  /** `r` is an address space with the first `k` regions of the kernel's part and nothing else, made
      from the empty one in `s`. */
  ghost predicate KernelMapped(s: State, r: State, d: Frame, data: nat, k: nat) {
    if k <= 3 then
      && Grown(s, r, d, KB, Top(data, k), 0)
      && forall v :: KB <= v < Top(data, k) ==> Trans(r.mem, d, v) == KernelEntry(v, data)
    else
      && Has(r, d) && Untouched(s, r, d, {})
      && (forall v :: 0 <= v < PAGES ==> Trans(r.mem, d, v) == KernelEntry(v, data))
      && (forall i :: 0 <= i < USERPDES ==> Pde(r.mem, d, i) == Absent)
      && |s.free| >= KPAGES - 1 && r.free == s.free[KPAGES - 1..]
  }

  function Top(data: nat, k: nat): (v: nat) {
    if k == 0 then KB else if k == 1 then KLINK else if k == 2 then data else KTOP
  }

  /** `d` is a new, empty address space. */
  ghost predicate Empty(s: State, d: Frame) {
    Has(s, d) && forall i :: 0 <= i < NPDENTRIES ==> Pde(s.mem, d, i) == Absent
  }

  lemma {:induction false} EmptyTrans(s: State, d: Frame)
    requires Empty(s, d)
    ensures forall v :: 0 <= v < PAGES ==> Trans(s.mem, d, v) == Absent
  {
  }

  /** A region mapped from page to page. */
  ghost predicate RegionMapped(r: State, q: State, d: Frame, g: Region) {
    && Grown(r, q, d, g.virt, g.end, 0)
    && forall v :: g.virt <= v < g.end ==> Trans(q.mem, d, v) == Present(g.phys + (v - g.virt), g.perm)
  }

  lemma {:induction false} FirstRegion(s: State, q: State, d: Frame, data: nat)
    requires KLINK < data < KTOP && RegionMapped(s, q, d, Kmap(data)[0])
    ensures KernelMapped(s, q, d, data, 1)
  {
    hide Grown, Trans;
  }

  lemma {:induction false} GrownFree(s: State, r: State, d: Frame, lo: nat, a: nat, n: nat)
    requires Grown(s, r, d, lo, a, n)
    ensures n + Missing(s.mem, d, lo, a) <= |s.free| && r.free == s.free[n + Missing(s.mem, d, lo, a)..]
  {
    hide Sound, Trans, Covered, Untouched, UsersKept, Missing, Pde;
  }

  lemma {:induction false} GrownPde(s: State, r: State, d: Frame, lo: nat, a: nat, n: nat, i: nat)
    requires Grown(s, r, d, lo, a, n) && i < NPDENTRIES
    ensures Pde(r.mem, d, i).Present? <==> Covered(s.mem, d, lo, a, i)
  {
    hide Sound, Trans, Covered, Untouched, UsersKept, Missing, Pde;
  }

  lemma {:induction false} GrownTrans(s: State, r: State, d: Frame, lo: nat, a: nat, n: nat)
    requires Grown(s, r, d, lo, a, n)
    ensures Has(r, d) && Untouched(s, r, d, {})
    ensures forall v :: 0 <= v < PAGES && !(lo <= v < a) ==> Trans(r.mem, d, v) == Trans(s.mem, d, v)
  {
    hide Sound, Trans, Covered, Untouched, UsersKept, Missing, Pde;
  }

  lemma {:induction false} NextRegion(s: State, r: State, q: State, d: Frame, data: nat, k: nat)
    requires KLINK < data < KTOP && 1 <= k <= 2
    requires KernelMapped(s, r, d, data, k) && RegionMapped(r, q, d, Kmap(data)[k])
    ensures KernelMapped(s, q, d, data, k + 1)
  {
    hide Grown, Trans, Has, Untouched;
    GrownTrans(r, q, d, Top(data, k), Top(data, k + 1), 0);
    GrownJoin(s, r, q, d, KB, Top(data, k), Top(data, k + 1), 0, 0);
    assert 0 + 0 == 0;
    forall v | KB <= v < Top(data, k + 1)
      ensures Trans(q.mem, d, v) == KernelEntry(v, data)
    {
    }
  }

  lemma {:induction false} KernelTables(s: State, r: State, d: Frame)
    requires Empty(s, d) && Grown(s, r, d, KB, KTOP, 0)
    ensures |s.free| >= 56 && r.free == s.free[56..]
    ensures forall i :: 0 <= i < USERPDES ==> Pde(r.mem, d, i) == Absent
    ensures forall i :: DEV / NPTENTRIES <= i < NPDENTRIES ==> Pde(r.mem, d, i) == Absent
  {
    hide Grown, Missing, Pde, Has;
    MissingAll(s.mem, d, KB, KTOP);
    GrownFree(s, r, d, KB, KTOP, 0);
    forall i | 0 <= i < NPDENTRIES
      ensures Pde(r.mem, d, i).Present? <==> USERPDES <= i <= (KTOP - 1) / NPTENTRIES
    {
      assert Pde(s.mem, d, i) == Absent;
      GrownPde(s, r, d, KB, KTOP, 0, i);
    }
  }

  lemma {:induction false} DeviceTables(r: State, q: State, d: Frame)
    requires Grown(r, q, d, DEV, PAGES, 0)
    requires forall i :: DEV / NPTENTRIES <= i < NPDENTRIES ==> Pde(r.mem, d, i) == Absent
    requires forall i :: 0 <= i < USERPDES ==> Pde(r.mem, d, i) == Absent
    ensures |r.free| >= 8 && q.free == r.free[8..]
    ensures forall i :: 0 <= i < USERPDES ==> Pde(q.mem, d, i) == Absent
  {
    hide Grown, Missing, Pde;
    MissingAll(r.mem, d, DEV, PAGES);
    GrownFree(r, q, d, DEV, PAGES, 0);
    forall i | 0 <= i < USERPDES
      ensures Pde(q.mem, d, i) == Absent
    {
      assert Pde(r.mem, d, i) == Absent;
      GrownPde(r, q, d, DEV, PAGES, 0, i);
    }
  }

  lemma {:induction false} LastRegion(s: State, r: State, q: State, d: Frame, data: nat)
    requires Empty(s, d) && KLINK < data < KTOP
    requires KernelMapped(s, r, d, data, 3) && RegionMapped(r, q, d, Kmap(data)[3])
    ensures KernelMapped(s, q, d, data, 4)
  {
    hide Grown, Trans, Pde, Untouched, Empty, Has;
    KernelTables(s, r, d);
    DeviceTables(r, q, d);
    EmptyTrans(s, d);
    GrownTrans(s, r, d, KB, KTOP, 0);
    GrownTrans(r, q, d, DEV, PAGES, 0);
    var none: set<Frame> := {};
    assert none + none == none;
    UntouchedTrans(s, r, q, d, none, none);
    forall v | 0 <= v < PAGES
      ensures Trans(q.mem, d, v) == KernelEntry(v, data)
    {
    }
  }

  /** The pages a region needs when the regions before it are there, and those after it. */
  lemma {:induction false} RegionShort(s: State, r: State, d: Frame, data: nat, k: nat)
    requires Empty(s, d) && KLINK < data < KTOP && k <= 3 && KernelMapped(s, r, d, data, k)
    requires var g := Kmap(data)[k]; |r.free| < Missing(r.mem, d, g.virt, g.end)
    ensures |s.free| < KPAGES - 1
  {
    hide Grown, Trans, Pde, Untouched, Has, Missing;
    if k == 3 {
      KernelTables(s, r, d);
      MissingAll(r.mem, d, DEV, PAGES);
    } else {
      hide Empty;
      RegionShortLow(s, r, d, data, k);
    }
  }

  lemma {:induction false} RegionShortLow(s: State, r: State, d: Frame, data: nat, k: nat)
    requires Empty(s, d) && KLINK < data < KTOP && k <= 2 && Grown(s, r, d, KB, Top(data, k), 0)
    requires |r.free| < Missing(r.mem, d, Top(data, k), Top(data, k + 1))
    ensures |s.free| < KPAGES - 1
  {
    hide Grown, Pde, Has, Missing;
    MissingAll(s.mem, d, KB, KTOP);
    MissingGrows(s.mem, d, KB, Top(data, k + 1), KTOP);
    GrownFree(s, r, d, KB, Top(data, k), 0);
    if k == 0 {
      SameMissing(s, r, d);
      MissingNone(s.mem, d, KB);
    } else {
      forall i | 0 <= i < NPDENTRIES
        ensures Pde(r.mem, d, i).Present? <==> Covered(s.mem, d, KB, Top(data, k), i)
      {
        GrownPde(s, r, d, KB, Top(data, k), 0, i);
      }
      MissingJoin(s, r, d, KB, Top(data, k), Top(data, k + 1));
    }
  }

  lemma {:induction false} MissingNone(m: Mem, d: Frame, lo: nat)
    ensures Missing(m, d, lo, lo) == 0
  {
  }

  lemma {:induction false} SameMissing(s: State, r: State, d: Frame)
    requires Empty(s, d) && Grown(s, r, d, KB, KB, 0)
    ensures Missing(r.mem, d, KB, KLINK) == Missing(s.mem, d, KB, KLINK)
  {
    hide Grown, Pde, Has, Missing;
    forall i | 0 <= i < NPDENTRIES
      ensures Pde(r.mem, d, i) == Absent
    {
      GrownPde(s, r, d, KB, KB, 0, i);
    }
    MissingAll(s.mem, d, KB, KLINK);
    MissingAll(r.mem, d, KB, KLINK);
  }

  // ---------------------------------------------------------------- making and unmaking a space

  /** `d` is a new address space, on a page that was free, that maps what the kernel needs. */
  ghost predicate SpaceMade(s: State, r: State, d: Frame, data: nat) {
    && d in s.place && s.place[d] == Free && Has(r, d) && Untouched(s, r, d, {})
    && (forall v :: 0 <= v < PAGES ==> Trans(r.mem, d, v) == KernelEntry(v, data))
    && (forall i :: 0 <= i < USERPDES ==> Pde(r.mem, d, i) == Absent)
    && |s.free| >= KPAGES && r.free == s.free[KPAGES..]
  }

  /** All is as it was, except that pages `x`, once free, have been left in nobody's use. */
  ghost predicate Returned(s: State, r: State, x: set<Frame>) {
    && Ok(r) && r.mem.Keys == s.mem.Keys == s.place.Keys
    && (forall f :: f in s.place && f !in x ==>
          r.place[f] == s.place[f] && (s.place[f] != Free ==> r.mem[f] == s.mem[f]))
    && (forall f :: f in x ==> f in s.place && s.place[f] == Free && r.place[f] == Held)
  }

  /** The first free page as an empty directory. */
  ghost function WithDir(s: State): (r: State)
    requires s.free != []
  {
    State(s.mem[s.free[0] := Table(Zeros())], s.free[1..], s.place[s.free[0] := Dir])
  }

  lemma {:induction false} MakeDir(s: State)
    requires Ok(s) && s.free != []
    ensures s.free[0] in s.place && s.place[s.free[0]] == Free
    ensures Empty(WithDir(s), s.free[0]) && Untouched(s, WithDir(s), s.free[0], {})
  {
    var d := s.free[0];
    Take(s.mem, s.free, s.place);
    var held := s.place[d := Held];
    NewDir(s.mem, s.free[1..], held, d);
    var r := WithDir(s);
    assert held[d := Dir] == r.place;
    hide Sound;
  }

  lemma {:induction false} SpaceDone(s: State, r: State, data: nat)
    requires Ok(s) && s.free != [] && KernelMapped(WithDir(s), r, s.free[0], data, 4)
    ensures SpaceMade(s, r, s.free[0], data)
  {
    MakeDir(s);
    hide Sound, Trans, Pde;
    var none: set<Frame> := {};
    assert none + none == none;
    UntouchedTrans(s, WithDir(s), r, s.free[0], none, none);
  }

  /** A page that was free cannot have belonged to any address space. */
  lemma {:induction false} NothingBelongs(s: State, d: Frame, f: Frame)
    requires Ok(s) && d in s.place && s.place[d] == Free && f in s.place
    ensures !Belongs(s.place[f], f, d)
  {
    assert FrameOk(s.mem, s.free, s.place, f);
  }

  /** Erasing a space that did not exist in `s` brings `s` back. */
  lemma {:induction false} EraseReturns(s: State, r: State, q: State, d: Frame, x: set<Frame>)
    requires Ok(s) && d in s.place && s.place[d] == Free && Untouched(s, r, d, x) && Erased(r, q, d)
    requires forall f :: f in x ==> f in s.place && s.place[f] == Free && f in r.place && r.place[f] == Held
    ensures Returned(s, q, x)
  {
    hide Sound;
    forall f | f in s.place && f !in x
      ensures q.place[f] == s.place[f] && (s.place[f] != Free ==> q.mem[f] == s.mem[f])
    {
      NothingBelongs(s, d, f);
    }
  }

  // ---------------------------------------------------------------- copying

  /** The pages a copy of `n` user pages takes. */
  function CopyCost(n: nat): (k: nat) {
    KPAGES + n + (n + NPTENTRIES - 1) / NPTENTRIES
  }

  ghost function CopyFlags(s: State, d: Frame): (f: nat -> nat) {
    (v: nat) => match Trans(s.mem, d, v) case Present(_, flags) => flags case Absent => 0
  }

  ghost function CopyBytes(s: State, d: Frame): (f: nat -> seq<Byte>) {
    (v: nat) =>
      match Trans(s.mem, d, v)
      case Present(f, _) => if f in s.mem && s.mem[f].Data? then s.mem[f].bytes else []
      case Absent => []
  }

  /** An address space outside of `c` is the same, its tables and its pages. */
  lemma {:induction false} OtherSpace(s: State, r: State, c: Frame, d: Frame, v: nat, x: set<Frame>)
    requires Has(s, d) && d != c && Untouched(s, r, c, x) && v < PAGES
    requires forall f :: f in x ==> f in s.place && s.place[f] == Free
    ensures IsDir(r.place, d)
    ensures Pde(r.mem, d, v / NPTENTRIES) == Pde(s.mem, d, v / NPTENTRIES)
    ensures Trans(r.mem, d, v) == Trans(s.mem, d, v)
    ensures v < KB && Trans(s.mem, d, v).Present? ==>
              var f := Trans(s.mem, d, v).frame; f in s.mem && s.mem[f].Data? && f in r.mem && r.mem[f] == s.mem[f]
  {
    var i, j := v / NPTENTRIES, v % NPTENTRIES;
    assert FrameOk(s.mem, s.free, s.place, d);
    assert Outside(s.place[d], d, c);
    if Pde(s.mem, d, i).Present? {
      TableOf(s.mem, s.free, s.place, d, i);
      var t := Pde(s.mem, d, i).frame;
      assert Outside(s.place[t], t, c);
      if v < KB && Pte(s.mem, d, i, j).Present? {
        UserFrame(s, d, i, j);
        var f := Pte(s.mem, d, i, j).frame;
        assert Outside(s.place[f], f, c);
      }
    }
  }

  /** What is free in `r` but in use in `s` cannot be, if only a new space came to be in between. */
  lemma {:induction false} FreeBefore(s: State, r: State, c: Frame, f: Frame)
    requires Ok(s) && c in s.place && s.place[c] == Free && Untouched(s, r, c, {}) && f in r.place && r.place[f] == Free
    ensures f in s.place && s.place[f] == Free
  {
    NothingBelongs(s, c, f);
    hide Sound;
  }

  lemma {:induction false} FilledBefore(s: State, r: State, q: State, c: Frame, a: nat, fl: nat -> nat, bs: nat -> seq<Byte>)
    requires Ok(s) && c in s.place && s.place[c] == Free && Untouched(s, r, c, {}) && Filled(r, q, c, 0, a, fl, bs)
    ensures Filled(s, q, c, 0, a, fl, bs)
  {
    hide Sound, Trans, Untouched;
    forall v | 0 <= v < a
      ensures PageHolds(s, q, Trans(q.mem, c, v), fl(v), bs(v))
    {
      assert PageHolds(r, q, Trans(q.mem, c, v), fl(v), bs(v));
      FreeBefore(s, r, c, Trans(q.mem, c, v).frame);
    }
  }

  /** In a new space, `a` user pages cost `a` pages and a table for every NPTENTRIES of them. */
  lemma {:induction false} NewSpaceCost(s: State, c: Frame, a: nat)
    requires a <= KB && forall i :: 0 <= i < USERPDES ==> Pde(s.mem, c, i) == Absent
    ensures Cost(s, c, 0, a) == a + (a + NPTENTRIES - 1) / NPTENTRIES
  {
    hide Pde, Missing;
    MissingAll(s.mem, c, 0, a);
  }

  /** Copying `n` pages with `free` pages of memory leaves one page in nobody's use. */
  predicate LeavesPage(free: nat, n: nat) {
    KPAGES < free < CopyCost(n) && (free - KPAGES) % (NPTENTRIES + 1) == 1
  }

  lemma {:induction false} StopsForPage(free: nat, a: nat, n: nat)
    requires a < n && free == CopyCost(a)
    ensures free < CopyCost(n) && !LeavesPage(free, n)
  {
    var q, k := a / NPTENTRIES, a % NPTENTRIES;
    assert a == q * NPTENTRIES + k;
    CeilIs(q, k);
    if k == 0 {
      assert free - KPAGES == q * (NPTENTRIES + 1);
      ModIs(q, 0);
    } else {
      assert free - KPAGES == q * (NPTENTRIES + 1) + k + 1;
      ModIs(q, k + 1);
    }
    CeilGrows(a, n);
  }

  lemma {:induction false} StopsForTable(free: nat, a: nat, n: nat)
    requires a < n && a % NPTENTRIES == 0 && free == CopyCost(a) + 1
    ensures LeavesPage(free, n)
  {
    var q := a / NPTENTRIES;
    assert a == q * NPTENTRIES;
    CeilIs(q, 0);
    assert free - KPAGES == q * (NPTENTRIES + 1) + 1;
    ModIs(q, 1);
    CeilGrows(a + 1, n);
    CeilIs(q, 1);
  }

  lemma {:induction false} CeilIs(q: nat, k: nat)
    requires k < NPTENTRIES
    ensures (q * NPTENTRIES + k + NPTENTRIES - 1) / NPTENTRIES == if k == 0 then q else q + 1
  {
  }

  lemma {:induction false} CeilGrows(a: nat, b: nat)
    requires a <= b
    ensures (a + NPTENTRIES - 1) / NPTENTRIES <= (b + NPTENTRIES - 1) / NPTENTRIES
  {
  }

  lemma {:induction false} ModIs(q: nat, k: nat)
    requires k < NPTENTRIES + 1
    ensures (q * (NPTENTRIES + 1) + k) % (NPTENTRIES + 1) == k
  {
  }
}
