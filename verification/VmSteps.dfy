/** What the operations on address spaces (vm.c) do to all of memory, step by step. */
module VmSteps {

  import opened Blocks
  import opened Paging

  /** All of memory: its pages, the free list (last freed first), and where every page is. */
  datatype State = State(mem: Mem, free: seq<Frame>, place: Places)

  ghost predicate Ok(s: State) {
    Sound(s.mem, s.free, s.place)
  }

  ghost predicate Has(s: State, d: Frame) {
    Ok(s) && IsDir(s.place, d)
  }

  /** Page `f` is in use, but not by the address space of `d`. */
  ghost predicate Outside(p: Place, f: Frame, d: Frame) {
    match p
    case Free => false
    case Held => true
    case Dir => f != d
    case Tab(e, _) => e != d
    case User(e, _, _) => e != d
  }

  /** Nothing outside the address space of `d` changed hands or contents, except pages `x`. */
  ghost predicate Untouched(s: State, r: State, d: Frame, x: set<Frame>) {
    && s.mem.Keys == r.mem.Keys == s.place.Keys == r.place.Keys
    && forall f :: f in s.place && f !in x && (Outside(s.place[f], f, d) || Outside(r.place[f], f, d)) ==>
         r.place[f] == s.place[f] && r.mem[f] == s.mem[f]
  }

  /** The user pages of `d` are where they were, with what they held. */
  ghost predicate UsersKept(s: State, r: State, d: Frame) {
    forall f :: f in s.place && f in r.place && s.place[f].User? && s.place[f].d == d && f in s.mem && f in r.mem ==>
      r.place[f] == s.place[f] && r.mem[f] == s.mem[f]
  }

  ghost predicate SameTranslation(s: State, r: State, d: Frame) {
    forall i, j :: 0 <= i < NPDENTRIES && 0 <= j < NPTENTRIES ==> Pte(r.mem, d, i, j) == Pte(s.mem, d, i, j)
  }

  lemma {:induction false} UntouchedTrans(s: State, r: State, q: State, d: Frame, x: set<Frame>, y: set<Frame>)
    requires Untouched(s, r, d, x) && Untouched(r, q, d, y)
    ensures Untouched(s, q, d, x + y)
  {
  }

  // ---------------------------------------------------------------- walkpgdir

  /** A page table has been added at entry `i`, on the first free page. */
  ghost predicate TableAdded(s: State, r: State, d: Frame, i: nat) {
    && Has(r, d) && Untouched(s, r, d, {}) && UsersKept(s, r, d) && SameTranslation(s, r, d)
    && i < NPDENTRIES && Pde(r.mem, d, i).Present? && Pde(r.mem, d, i).flags == PTE_W + PTE_U
    && (forall k :: 0 <= k < NPDENTRIES && k != i ==> Pde(r.mem, d, k) == Pde(s.mem, d, k))
    && s.free != [] && r.free == s.free[1..]
  }

  lemma {:induction false} AddTable(s: State, d: Frame, i: nat, flags: nat)
    requires Has(s, d) && i < NPDENTRIES && Pde(s.mem, d, i) == Absent && s.free != [] && flags == PTE_W + PTE_U
    ensures var t := s.free[0];
            && TableAt(s.mem, d) && t in s.mem && t != d
            && TableAdded(s, State(WithTable(s.mem, d, i, t, flags), s.free[1..], s.place[t := Tab(d, i)]), d, i)
  {
    var t := s.free[0];
    Take(s.mem, s.free, s.place);
    var h := s.place[t := Held];
    NewTable(s.mem, s.free[1..], h, d, i, t, flags);
    var r := State(WithTable(s.mem, d, i, t, flags), s.free[1..], s.place[t := Tab(d, i)]);
    assert h[t := Tab(d, i)] == r.place;
    assert IsDir(h, d) && h[t] == Held;
    AddTableFrames(s, r, d, i, t);
    hide Ok, Untouched, UsersKept, Pte;
    AddTableTrans(s, r, h, d, i, t, flags);
  }

  lemma {:induction false} AddTableFrames(s: State, r: State, d: Frame, i: nat, t: Frame)
    requires s.mem.Keys == s.place.Keys == r.mem.Keys && t in s.place && s.place[t] == Free && t != d
    requires IsDir(s.place, d) && r.place == s.place[t := Tab(d, i)]
    requires forall f :: f in s.mem && f != t && f != d ==> r.mem[f] == s.mem[f]
    ensures Untouched(s, r, d, {}) && UsersKept(s, r, d)
  {
  }

  lemma {:induction false} AddTableTrans(s: State, r: State, h: Places, d: Frame, i: nat, t: Frame, flags: nat)
    requires s.free != [] && Sound(s.mem, s.free[1..], h) && IsDir(h, d) && t in h && h[t] == Held
    requires i < NPDENTRIES && Pde(s.mem, d, i) == Absent
    requires TableAt(s.mem, d) && t in s.mem && t != d && r.mem == WithTable(s.mem, d, i, t, flags)
    ensures SameTranslation(s, r, d) && Pde(r.mem, d, i) == Present(t, flags)
    ensures forall k :: 0 <= k < NPDENTRIES && k != i ==> Pde(r.mem, d, k) == Pde(s.mem, d, k)
  {
    hide Sound, Pte, Pde, WithTable;
    forall k, j | 0 <= k < NPDENTRIES && 0 <= j < NPTENTRIES
      ensures Pte(r.mem, d, k, j) == Pte(s.mem, d, k, j)
    {
      PteWithTable(s.mem, s.free[1..], h, d, i, t, flags, d, k, j);
    }
    PteWithTable(s.mem, s.free[1..], h, d, i, t, flags, d, i, 0);
    forall k | 0 <= k < NPDENTRIES && k != i
      ensures Pde(r.mem, d, k) == Pde(s.mem, d, k)
    {
      PteWithTable(s.mem, s.free[1..], h, d, i, t, flags, d, k, 0);
    }
  }

  // ---------------------------------------------------------------- mappages, one page

  /** The translation of `(i, j)` in `d` is now `e`, and no other. */
  ghost predicate Retranslated(s: State, r: State, d: Frame, i: nat, j: nat, e: Entry) {
    forall k, l :: 0 <= k < NPDENTRIES && 0 <= l < NPTENTRIES ==>
      Pte(r.mem, d, k, l) == if k == i && l == j then e else Pte(s.mem, d, k, l)
  }

  ghost predicate SameTables(s: State, r: State, d: Frame) {
    forall k :: 0 <= k < NPDENTRIES ==> Pde(r.mem, d, k) == Pde(s.mem, d, k)
  }

  /** Page `f` is mapped at `(i, j)`. */
  ghost predicate PageMapped(s: State, r: State, d: Frame, i: nat, j: nat, f: Frame, flags: nat) {
    && Has(r, d) && Untouched(s, r, d, {f}) && UsersKept(s, r, d)
    && Retranslated(s, r, d, i, j, Present(f, flags))
    && (i < USERPDES ==> f in r.place && f in r.mem && f in s.mem && r.place[f] == User(d, i, j) && r.mem[f] == s.mem[f])
    && (i >= USERPDES ==> Untouched(s, r, d, {}))
  }

  ghost function SetPte(s: State, d: Frame, i: nat, j: nat, e: Entry, place: Places): (r: State)
    requires Pde(s.mem, d, i).Present? && TableAt(s.mem, Pde(s.mem, d, i).frame) && j < NPTENTRIES
  {
    State(SetEntry(s.mem, Pde(s.mem, d, i).frame, j, e), s.free, place)
  }

  lemma {:induction false} SetPteEffect(s: State, d: Frame, i: nat, j: nat, e: Entry)
    requires Has(s, d) && i < NPDENTRIES && j < NPTENTRIES && Pde(s.mem, d, i).Present?
    ensures TableAt(s.mem, Pde(s.mem, d, i).frame)
    ensures var r := SetPte(s, d, i, j, e, s.place); Retranslated(s, r, d, i, j, e) && SameTables(s, r, d)
  {
    TableOf(s.mem, s.free, s.place, d, i);
    var r := SetPte(s, d, i, j, e, s.place);
    hide Sound, Pte, Pde;
    forall k, l | 0 <= k < NPDENTRIES && 0 <= l < NPTENTRIES
      ensures Pte(r.mem, d, k, l) == if k == i && l == j then e else Pte(s.mem, d, k, l)
    {
      PteAfter(s.mem, s.free, s.place, d, i, j, e, d, k, l);
    }
    forall k | 0 <= k < NPDENTRIES
      ensures Pde(r.mem, d, k) == Pde(s.mem, d, k)
    {
      PteAfter(s.mem, s.free, s.place, d, i, j, e, d, k, 0);
    }
  }

  lemma {:induction false} MapUserPage(s: State, d: Frame, i: nat, j: nat, f: Frame, flags: nat)
    requires Has(s, d) && i < USERPDES && j < NPTENTRIES && Pde(s.mem, d, i).Present?
    requires Pte(s.mem, d, i, j) == Absent && f in s.place && s.place[f] == Held
    ensures TableAt(s.mem, Pde(s.mem, d, i).frame)
    ensures var r := SetPte(s, d, i, j, Present(f, flags), s.place[f := User(d, i, j)]);
            PageMapped(s, r, d, i, j, f, flags) && SameTables(s, r, d)
  {
    var e := Present(f, flags);
    assert FrameOk(s.mem, s.free, s.place, f);
    TableOf(s.mem, s.free, s.place, d, i);
    Rewire(s.mem, s.free, s.place, d, i, j, e, f, User(d, i, j));
    SetPteEffect(s, d, i, j, e);
    hide Sound, Pte, Pde;
  }

  lemma {:induction false} MapKernelPage(s: State, d: Frame, i: nat, j: nat, f: Frame, flags: nat)
    requires Has(s, d) && USERPDES <= i < NPDENTRIES && j < NPTENTRIES && Pde(s.mem, d, i).Present?
    ensures TableAt(s.mem, Pde(s.mem, d, i).frame)
    ensures var r := SetPte(s, d, i, j, Present(f, flags), s.place);
            PageMapped(s, r, d, i, j, f, flags) && SameTables(s, r, d)
  {
    var e := Present(f, flags);
    TableOf(s.mem, s.free, s.place, d, i);
    MapKernel(s.mem, s.free, s.place, d, i, j, e);
    SetPteEffect(s, d, i, j, e);
    hide Sound, Pte, Pde;
  }

  /** Walking to an entry, adding its table if it is missing. */
  ghost predicate Walked(s: State, r: State, d: Frame, i: nat) {
    if Pde(s.mem, d, i).Present? then r == s else TableAdded(s, r, d, i)
  }

  /** mappages() of one page: the walk, then the entry. */
  ghost predicate Mapped(s: State, r: State, d: Frame, i: nat, j: nat, f: Frame, flags: nat) {
    && PageMapped(s, r, d, i, j, f, flags)
    && (forall k :: 0 <= k < NPDENTRIES && k != i ==> Pde(r.mem, d, k) == Pde(s.mem, d, k))
    && Pde(r.mem, d, i).Present?
    && (if Pde(s.mem, d, i).Present? then r.free == s.free else s.free != [] && r.free == s.free[1..])
  }

  lemma {:induction false} MapAfterWalk(s: State, r: State, q: State, d: Frame, i: nat, j: nat, f: Frame, flags: nat)
    requires Has(s, d) && i < NPDENTRIES && j < NPTENTRIES && Walked(s, r, d, i)
    requires PageMapped(r, q, d, i, j, f, flags) && SameTables(r, q, d) && q.free == r.free
    requires i < USERPDES ==> f in s.place && s.place[f] == Held
    ensures Mapped(s, q, d, i, j, f, flags)
  {
    hide Sound, Pte, Pde;
    if !Pde(s.mem, d, i).Present? {
      UntouchedTrans(s, r, q, d, {}, {f});
      assert {} + {f} == {f};
      if i >= USERPDES {
        var none: set<Frame> := {};
        UntouchedTrans(s, r, q, d, none, none);
        assert none + none == none;
      }
    }
  }

  // ---------------------------------------------------------------- ranges of pages

  /** The translation of a page number. */
  function Trans(m: Mem, d: Frame, v: nat): (e: Entry) {
    Pte(m, d, v / NPTENTRIES, v % NPTENTRIES)
  }

  const PAGES := NPDENTRIES * NPTENTRIES

  /** How many page tables are missing for the pages from `lo` below `hi`. */
  ghost function Missing(m: Mem, d: Frame, lo: nat, hi: nat): (n: nat) {
    if hi <= lo then 0
    else
      Missing(m, d, lo, hi - 1)
      + (if (hi - 1 == lo || (hi - 1) % NPTENTRIES == 0) && Pde(m, d, (hi - 1) / NPTENTRIES) == Absent then 1 else 0)
  }

  /** Entry `k` of the directory has a table once the pages from `lo` below `a` are mapped. */
  ghost predicate Covered(m: Mem, d: Frame, lo: nat, a: nat, k: nat) {
    Pde(m, d, k).Present? || (lo < a && lo / NPTENTRIES <= k <= (a - 1) / NPTENTRIES)
  }

  /** From `s`, the pages from `lo` below `a` have been mapped in `d` and nothing else has happened,
      with `pages` fresh pages and all missing tables taken off the free list. */
  ghost predicate Grown(s: State, r: State, d: Frame, lo: nat, a: nat, pages: nat) {
    && Has(r, d) && Untouched(s, r, d, {}) && UsersKept(s, r, d)
    && (forall v :: 0 <= v < PAGES && !(lo <= v < a) ==> Trans(r.mem, d, v) == Trans(s.mem, d, v))
    && (forall v :: lo <= v < a ==> Trans(r.mem, d, v).Present?)
    && (forall k :: 0 <= k < NPDENTRIES ==> (Pde(r.mem, d, k).Present? <==> Covered(s.mem, d, lo, a, k)))
    && var n := pages + Missing(s.mem, d, lo, a);
       n <= |s.free| && r.free == s.free[n..]
  }

  lemma {:induction false} GrownStart(s: State, d: Frame, lo: nat)
    requires Has(s, d)
    ensures Grown(s, s, d, lo, lo, 0)
  {
  }

  lemma {:induction false} PageIndex(v: nat, i: nat, j: nat)
    requires j < NPTENTRIES
    ensures v == i * NPTENTRIES + j <==> v / NPTENTRIES == i && v % NPTENTRIES == j
  {
  }

  /** The table needed for page `a` is missing exactly at the start of the range or of a table. */
  lemma {:induction false} CoveredNext(m: Mem, d: Frame, lo: nat, a: nat)
    requires lo <= a
    ensures Covered(m, d, lo, a, a / NPTENTRIES)
            <==> !((a == lo || a % NPTENTRIES == 0) && Pde(m, d, a / NPTENTRIES) == Absent)
    ensures Missing(m, d, lo, a + 1) == Missing(m, d, lo, a) + (if Covered(m, d, lo, a, a / NPTENTRIES) then 0 else 1)
    ensures forall k :: k != a / NPTENTRIES ==> (Covered(m, d, lo, a + 1, k) <==> Covered(m, d, lo, a, k))
    ensures Covered(m, d, lo, a + 1, a / NPTENTRIES)
  {
  }

  /** The directory and the free list after one more page, `taken` pages having been taken for it. */
  lemma {:induction false} GrowTables(s: State, r: State, h: State, q: State, d: Frame, lo: nat, a: nat, pages: nat, taken: nat, f: Frame, flags: nat)
    requires Grown(s, r, d, lo, a, pages) && lo <= a < PAGES
    requires SameTables(r, h, d) && taken <= |r.free| && h.free == r.free[taken..]
    requires Mapped(h, q, d, a / NPTENTRIES, a % NPTENTRIES, f, flags)
    ensures forall k :: 0 <= k < NPDENTRIES ==> (Pde(q.mem, d, k).Present? <==> Covered(s.mem, d, lo, a + 1, k))
    ensures var n := pages + taken + Missing(s.mem, d, lo, a + 1);
            n <= |s.free| && q.free == s.free[n..]
  {
    hide PageMapped, Untouched, UsersKept, Sound, Pte, Pde, Trans;
    CoveredNext(s.mem, d, lo, a);
    hide Covered, Missing;
    var i := a / NPTENTRIES;
    assert Pde(h.mem, d, i) == Pde(r.mem, d, i);
    forall k | 0 <= k < NPDENTRIES
      ensures Pde(q.mem, d, k).Present? <==> Covered(s.mem, d, lo, a + 1, k)
    {
      if k != i {
        assert Pde(q.mem, d, k) == Pde(h.mem, d, k) == Pde(r.mem, d, k);
      }
    }
  }

  /** A page in hand does not change any translation. */
  ghost function InHand(r: State, bytes: seq<Byte>): (h: State)
    requires r.free != []
  {
    State(r.mem[r.free[0] := Data(bytes)], r.free[1..], r.place[r.free[0] := Held])
  }

  lemma {:induction false} TakeAndFill(r: State, bytes: seq<Byte>, d: Frame)
    requires Has(r, d) && r.free != []
    ensures r.free[0] in r.place && r.place[r.free[0]] == Free
    ensures var h := InHand(r, bytes);
            Has(h, d) && SameTables(r, h, d) && SameTranslation(r, h, d) && Untouched(r, h, d, {r.free[0]})
  {
    var f := r.free[0];
    Take(r.mem, r.free, r.place);
    var held := r.place[f := Held];
    Fill(r.mem, r.free[1..], held, f, bytes);
    var h := InHand(r, bytes);
    assert FrameOk(r.mem, r.free, r.place, d);
    forall k, j | 0 <= k < NPDENTRIES && 0 <= j < NPTENTRIES
      ensures Pte(h.mem, d, k, j) == Pte(r.mem, d, k, j)
    {
      PteKept(r.mem, h.mem, r.place, f, d, k, j);
    }
    forall k | 0 <= k < NPDENTRIES
      ensures Pde(h.mem, d, k) == Pde(r.mem, d, k)
    {
      PteKept(r.mem, h.mem, r.place, f, d, k, 0);
    }
  }

  /** The translations after one more page. */
  lemma {:induction false} GrowTrans(s: State, r: State, h: State, q: State, d: Frame, lo: nat, a: nat, f: Frame, flags: nat)
    requires forall v :: 0 <= v < PAGES && !(lo <= v < a) ==> Trans(r.mem, d, v) == Trans(s.mem, d, v)
    requires SameTranslation(r, h, d) && lo <= a < PAGES
    requires Retranslated(h, q, d, a / NPTENTRIES, a % NPTENTRIES, Present(f, flags))
    ensures forall v :: 0 <= v < PAGES && !(lo <= v < a + 1) ==> Trans(q.mem, d, v) == Trans(s.mem, d, v)
    ensures forall v :: lo <= v < a ==> Trans(q.mem, d, v) == Trans(r.mem, d, v)
    ensures Trans(q.mem, d, a) == Present(f, flags)
  {
    hide Pte;
    forall v | 0 <= v < PAGES && v != a
      ensures Trans(q.mem, d, v) == Trans(r.mem, d, v)
    {
      PageIndex(v, a / NPTENTRIES, a % NPTENTRIES);
      PageIndex(a, a / NPTENTRIES, a % NPTENTRIES);
    }
  }

  lemma {:induction false} GrowFrames(s: State, r: State, q: State, d: Frame, bytes: seq<Byte>, i: nat, j: nat, flags: nat)
    requires Untouched(s, r, d, {}) && UsersKept(s, r, d) && i < USERPDES && r.free != []
    requires s.mem.Keys == r.mem.Keys == s.place.Keys == r.place.Keys
    requires r.free[0] in r.place && r.place[r.free[0]] == Free && s.place[r.free[0]] == Free
    requires Untouched(r, InHand(r, bytes), d, {r.free[0]})
    requires PageMapped(InHand(r, bytes), q, d, i, j, r.free[0], flags)
    ensures Untouched(s, q, d, {}) && UsersKept(s, q, d) && UsersKept(r, q, d)
    ensures r.free[0] in q.mem && q.mem[r.free[0]] == Data(bytes)
  {
    hide Sound, Retranslated, UsersKept, Has;
    var f := r.free[0];
    var h := InHand(r, bytes);
    assert Untouched(s, q, d, {}) by {
      UntouchedTrans(s, r, h, d, {}, {f});
      UntouchedTrans(s, h, q, d, {} + {f}, {f});
      assert s.place[f] == Free && q.place[f] == User(d, i, j);
    }
    hide Untouched;
    GrowUsers(r, q, d, bytes);
    GrowUsersTrans(s, r, q, d);
  }

  lemma {:induction false} GrowUsers(r: State, q: State, d: Frame, bytes: seq<Byte>)
    requires r.free != [] && r.free[0] in r.place && r.place[r.free[0]] == Free
    requires UsersKept(InHand(r, bytes), q, d)
    ensures UsersKept(r, q, d)
  {
    var f := r.free[0];
    var h := InHand(r, bytes);
    forall g | g in r.place && g in q.place && r.place[g].User? && r.place[g].d == d && g in r.mem && g in q.mem
      ensures q.place[g] == r.place[g] && q.mem[g] == r.mem[g]
    {
      assert h.place[g] == r.place[g] && h.mem[g] == r.mem[g];
    }
  }

  lemma {:induction false} GrowUsersTrans(s: State, r: State, q: State, d: Frame)
    requires UsersKept(s, r, d) && UsersKept(r, q, d)
    requires s.mem.Keys == r.mem.Keys == s.place.Keys == r.place.Keys
    ensures UsersKept(s, q, d)
  {
  }

  /** One more user page, on a page that was free. */
  lemma {:induction false} GrowUser(s: State, r: State, q: State, d: Frame, lo: nat, a: nat, pages: nat, bytes: seq<Byte>, flags: nat)
    requires Has(s, d) && Grown(s, r, d, lo, a, pages) && lo <= a < USERPDES * NPTENTRIES && r.free != []
    requires Mapped(InHand(r, bytes), q, d, a / NPTENTRIES, a % NPTENTRIES, r.free[0], flags)
    ensures Grown(s, q, d, lo, a + 1, pages + 1)
    ensures Trans(q.mem, d, a) == Present(r.free[0], flags)
    ensures r.free[0] in q.mem && q.mem[r.free[0]] == Data(bytes)
    ensures r.free[0] in s.place && s.place[r.free[0]] == Free
    ensures forall v :: lo <= v < a ==> Trans(q.mem, d, v) == Trans(r.mem, d, v)
    ensures UsersKept(r, q, d)
  {
    hide Sound, Pte, Pde, Trans, Missing, Covered, Untouched, UsersKept, Retranslated, SameTables, SameTranslation, InHand;
    GrownKeys(s, r, d, lo, a, pages);
    var f := r.free[0];
    var h := InHand(r, bytes);
    TakeAndFill(r, bytes, d);
    FreshPage(s, r, d, lo, a, pages);
    assert h.free == r.free[1..] by {
      InHandFree(r, bytes);
    }
    GrowTables(s, r, h, q, d, lo, a, pages, 1, f, flags);
    GrowTrans(s, r, h, q, d, lo, a, f, flags);
    GrowFrames(s, r, q, d, bytes, a / NPTENTRIES, a % NPTENTRIES, flags);
  }

  lemma {:induction false} InHandFree(r: State, bytes: seq<Byte>)
    requires r.free != []
    ensures InHand(r, bytes).free == r.free[1..]
  {
  }

  lemma {:induction false} GrownKeys(s: State, r: State, d: Frame, lo: nat, a: nat, pages: nat)
    requires Grown(s, r, d, lo, a, pages)
    ensures s.mem.Keys == r.mem.Keys == s.place.Keys == r.place.Keys
  {
    hide Sound, Missing, Covered, Trans, UsersKept;
  }

  /** What is free after growing was free before. */
  lemma {:induction false} FreshPage(s: State, r: State, d: Frame, lo: nat, a: nat, pages: nat)
    requires Ok(s) && Grown(s, r, d, lo, a, pages) && r.free != []
    ensures r.free[0] in s.place && s.place[r.free[0]] == Free
  {
    hide Missing, Covered, Trans, FrameOk, Untouched, UsersKept;
    var n := pages + Missing(s.mem, d, lo, a);
    assert s.free[n] == r.free[0];
  }

  lemma {:induction false} SameAsItself(r: State, d: Frame)
    ensures SameTables(r, r, d) && SameTranslation(r, r, d)
  {
  }

  /** One more page of the kernel's half. */
  lemma {:induction false} GrowKernel(s: State, r: State, q: State, d: Frame, lo: nat, a: nat, f: Frame, flags: nat)
    requires Has(s, d) && Grown(s, r, d, lo, a, 0) && lo <= a < PAGES && a >= USERPDES * NPTENTRIES
    requires Mapped(r, q, d, a / NPTENTRIES, a % NPTENTRIES, f, flags)
    ensures Grown(s, q, d, lo, a + 1, 0)
    ensures Trans(q.mem, d, a) == Present(f, flags)
    ensures forall v :: lo <= v < a ==> Trans(q.mem, d, v) == Trans(r.mem, d, v)
  {
    hide Sound, Pte, Pde, Trans, Missing, Covered, Untouched, UsersKept, Retranslated, SameTables, SameTranslation;
    SameAsItself(r, d);
    GrownKeys(s, r, d, lo, a, 0);
    assert r.free == r.free[0..];
    GrowTables(s, r, r, q, d, lo, a, 0, 0, f, flags);
    GrowTrans(s, r, r, q, d, lo, a, f, flags);
    var none: set<Frame> := {};
    assert none + none == none;
    UntouchedTrans(s, r, q, d, none, none);
    GrowUsersTrans(s, r, q, d);
  }

  // ---------------------------------------------------------------- freeing user pages

  /** What kfree() fills a page with. */
  function Junk(): (b: seq<Byte>) {
    seq(4096, _ => 1)
  }

  /** `p` is user memory of `d`, at a page from `lo` below `hi`. */
  ghost predicate InRange(p: Place, d: Frame, lo: nat, hi: nat) {
    p.User? && p.d == d && lo <= p.i * NPTENTRIES + p.j < hi
  }

  ghost function FreedPlaces(place: Places, d: Frame, lo: nat, hi: nat): (q: Places)
    ensures q.Keys == place.Keys
    ensures forall f :: f in place ==> q[f] == if InRange(place[f], d, lo, hi) then Free else place[f]
  {
    map f | f in place :: if InRange(place[f], d, lo, hi) then Free else place[f]
  }

  /** The pages mapped from `lo` below `hi`, as visiting them page by page puts them on the free
      list. */
  ghost function Stack(m: Mem, d: Frame, lo: nat, hi: nat): (fs: seq<Frame>) {
    if hi <= lo then []
    else (if Trans(m, d, hi - 1).Present? then [Trans(m, d, hi - 1).frame] else []) + Stack(m, d, lo, hi - 1)
  }

  /** Only the pages freed and the tables of `d` have other contents. */
  ghost predicate DroppedMem(s: State, r: State, d: Frame, lo: nat, hi: nat) {
    && r.mem.Keys == s.mem.Keys == s.place.Keys
    && forall f :: f in s.mem && !InRange(s.place[f], d, lo, hi) && !(s.place[f].Tab? && s.place[f].d == d) ==>
         r.mem[f] == s.mem[f]
  }

  ghost predicate DroppedTrans(s: State, r: State, d: Frame, lo: nat, hi: nat) {
    forall v :: 0 <= v < PAGES ==> Trans(r.mem, d, v) == if lo <= v < hi then Absent else Trans(s.mem, d, v)
  }

  /** The user pages of `d` from `lo` below `hi` have been freed, as visiting them one by one would,
      and nothing else has happened. */
  ghost predicate Dropped(s: State, r: State, d: Frame, lo: nat, hi: nat) {
    && Has(r, d) && SameTables(s, r, d)
    && DroppedMem(s, r, d, lo, hi)
    && DroppedTrans(s, r, d, lo, hi)
    && r.place == FreedPlaces(s.place, d, lo, hi)
    && r.free == Stack(s.mem, d, lo, hi) + s.free
  }

  lemma {:induction false} DroppedStart(s: State, d: Frame, lo: nat)
    requires Has(s, d)
    ensures Dropped(s, s, d, lo, lo)
  {
    assert FreedPlaces(s.place, d, lo, lo) == s.place;
    assert Stack(s.mem, d, lo, lo) + s.free == s.free;
  }

  lemma {:induction false} AbsentPlaces(s: State, d: Frame, lo: nat, a: nat)
    requires Has(s, d) && lo <= a < PAGES && Trans(s.mem, d, a) == Absent
    ensures FreedPlaces(s.place, d, lo, a + 1) == FreedPlaces(s.place, d, lo, a)
    ensures forall f :: f in s.place ==> (InRange(s.place[f], d, lo, a + 1) <==> InRange(s.place[f], d, lo, a))
  {
    forall f | f in s.place
      ensures InRange(s.place[f], d, lo, a + 1) <==> InRange(s.place[f], d, lo, a)
    {
      assert FrameOk(s.mem, s.free, s.place, f);
      if s.place[f].User? {
        PageIndex(a, s.place[f].i, s.place[f].j);
      }
    }
  }

  /** A page that is not mapped needs no step. */
  lemma {:induction false} DropAbsent(s: State, r: State, d: Frame, lo: nat, a: nat)
    requires Has(s, d) && Dropped(s, r, d, lo, a) && lo <= a < PAGES && Trans(s.mem, d, a) == Absent
    ensures Dropped(s, r, d, lo, a + 1)
  {
    hide Has, SameTables, DroppedMem, DroppedTrans, FreedPlaces, Stack, InRange, Trans, Pde, Pte;
    AbsentPlaces(s, d, lo, a);
    AbsentStack(s.mem, d, lo, a);
    AbsentMem(s, r, d, lo, a);
    AbsentTrans(s, r, d, lo, a);
  }

  lemma {:induction false} AbsentStack(m: Mem, d: Frame, lo: nat, a: nat)
    requires Trans(m, d, a) == Absent
    ensures lo <= a ==> Stack(m, d, lo, a + 1) == Stack(m, d, lo, a)
  {
    hide Trans;
  }

  lemma {:induction false} AbsentMem(s: State, r: State, d: Frame, lo: nat, a: nat)
    requires DroppedMem(s, r, d, lo, a)
    ensures DroppedMem(s, r, d, lo, a + 1)
  {
  }

  lemma {:induction false} AbsentTrans(s: State, r: State, d: Frame, lo: nat, a: nat)
    requires DroppedTrans(s, r, d, lo, a) && lo <= a && Trans(s.mem, d, a) == Absent
    ensures DroppedTrans(s, r, d, lo, a + 1)
  {
    hide Trans;
  }

  lemma {:induction false} NextIndex(a: nat, b: nat)
    requires a + 1 < b <= (a / NPTENTRIES + 1) * NPTENTRIES
    ensures (a + 1) / NPTENTRIES == a / NPTENTRIES
  {
  }

  lemma {:induction false} NoTable(m: Mem, d: Frame, a: nat)
    requires Pde(m, d, a / NPTENTRIES) == Absent
    ensures Trans(m, d, a) == Absent
  {
  }

  /** Without a page table there is nothing to free. */
  lemma {:induction false} DropSkip(s: State, r: State, d: Frame, lo: nat, a: nat, b: nat)
    requires Has(s, d) && Dropped(s, r, d, lo, a) && lo <= a <= b <= PAGES
    requires a < PAGES && Pde(s.mem, d, a / NPTENTRIES) == Absent && b <= (a / NPTENTRIES + 1) * NPTENTRIES
    ensures Dropped(s, r, d, lo, b)
    decreases b - a
  {
    hide Dropped, Has, Trans, Pde;
    if a < b {
      NoTable(s.mem, d, a);
      DropAbsent(s, r, d, lo, a);
      if a + 1 < b {
        NextIndex(a, b);
        DropSkip(s, r, d, lo, a + 1, b);
      }
    }
  }

  ghost predicate Releasable(r: State, d: Frame, i: nat, j: nat) {
    && Pde(r.mem, d, i).Present? && TableAt(r.mem, Pde(r.mem, d, i).frame) && j < NPTENTRIES
    && Pte(r.mem, d, i, j).Present? && Pte(r.mem, d, i, j).frame in r.mem
    && Pte(r.mem, d, i, j).frame != Pde(r.mem, d, i).frame
  }

  /** The state after freeing the page mapped at `(i, j)`. */
  ghost function Released(r: State, d: Frame, i: nat, j: nat): (q: State)
    requires Releasable(r, d, i, j)
  {
    var f := Pte(r.mem, d, i, j).frame;
    State(SetEntry(r.mem[f := Data(Junk())], Pde(r.mem, d, i).frame, j, Absent), [f] + r.free, r.place[f := Free])
  }

  lemma {:induction false} ReleasedShape(r: State, d: Frame, i: nat, j: nat)
    requires Releasable(r, d, i, j)
    ensures var q := Released(r, d, i, j);
            var f := Pte(r.mem, d, i, j).frame;
            && q.place == r.place[f := Free] && q.free == [f] + r.free && q.mem.Keys == r.mem.Keys
            && forall g :: g in r.mem && g != f && g != Pde(r.mem, d, i).frame ==> q.mem[g] == r.mem[g]
  {
    hide Pte, Pde;
  }

  lemma {:induction false} UserFrame(r: State, d: Frame, i: nat, j: nat)
    requires Has(r, d) && i < USERPDES && j < NPTENTRIES && Pte(r.mem, d, i, j).Present?
    ensures var f := Pte(r.mem, d, i, j).frame;
            f in r.place && r.place[f] == User(d, i, j) && f in r.mem && r.mem[f].Data?
    ensures Releasable(r, d, i, j)
  {
    assert FrameOk(r.mem, r.free, r.place, d);
    TableOf(r.mem, r.free, r.place, d, i);
    assert FrameOk(r.mem, r.free, r.place, Pte(r.mem, d, i, j).frame);
  }

  lemma {:induction false} Release(r: State, d: Frame, i: nat, j: nat)
    requires Has(r, d) && i < USERPDES && j < NPTENTRIES && Pte(r.mem, d, i, j).Present?
    requires Releasable(r, d, i, j)
    ensures var q := Released(r, d, i, j);
            Has(q, d) && SameTables(r, q, d) && Retranslated(r, q, d, i, j, Absent)
  {
    var f := Pte(r.mem, d, i, j).frame;
    var t := Pde(r.mem, d, i).frame;
    UserFrame(r, d, i, j);
    Rewire(r.mem, r.free, r.place, d, i, j, Absent, f, Held);
    var m := SetEntry(r.mem, t, j, Absent);
    var held := r.place[f := Held];
    Give(m, r.free, held, f, Junk());
    var q := Released(r, d, i, j);
    assert m[f := Data(Junk())] == q.mem;
    assert held[f := Free] == q.place;
    SetPteEffect(r, d, i, j, Absent);
    var h := SetPte(r, d, i, j, Absent, r.place);
    ReleaseTrans(h.mem, r.free, held, q.mem, d, f);
  }

  lemma {:induction false} ReleaseTrans(m: Mem, free: seq<Frame>, place: Places, r: Mem, d: Frame, f: Frame)
    requires Sound(m, free, place) && IsDir(place, d) && f in place && place[f] == Held
    requires r == m[f := Data(Junk())]
    ensures forall k, l :: 0 <= k < NPDENTRIES && 0 <= l < NPTENTRIES ==> Pte(r, d, k, l) == Pte(m, d, k, l)
    ensures forall k :: 0 <= k < NPDENTRIES ==> Pde(r, d, k) == Pde(m, d, k)
  {
    assert FrameOk(m, free, place, d);
    forall k, l | 0 <= k < NPDENTRIES && 0 <= l < NPTENTRIES
      ensures Pte(r, d, k, l) == Pte(m, d, k, l)
    {
      PteKept(m, r, place, f, d, k, l);
    }
    forall k | 0 <= k < NPDENTRIES
      ensures Pde(r, d, k) == Pde(m, d, k)
    {
      PteKept(m, r, place, f, d, k, 0);
    }
  }

  lemma {:induction false} TransAt(m: Mem, d: Frame, i: nat, j: nat)
    requires j < NPTENTRIES
    ensures Trans(m, d, i * NPTENTRIES + j) == Pte(m, d, i, j)
  {
    PageIndex(i * NPTENTRIES + j, i, j);
  }

  /** Freeing a mapped page. */
  lemma {:induction false} DropPage(s: State, r: State, d: Frame, lo: nat, a: nat, i: nat, j: nat)
    requires Has(s, d) && Dropped(s, r, d, lo, a) && lo <= a && a == i * NPTENTRIES + j
    requires i < USERPDES && j < NPTENTRIES && Releasable(r, d, i, j)
    ensures Dropped(s, Released(r, d, i, j), d, lo, a + 1)
  {
    hide Has, SameTables, Pte, Pde, Trans, InRange, Released, Retranslated, TableAt, DroppedMem, DroppedTrans, FreedPlaces;
    var f := Pte(r.mem, d, i, j).frame;
    var q := Released(r, d, i, j);
    ReleasedShape(r, d, i, j);
    hide Releasable;
    UserFrame(r, d, i, j);
    Release(r, d, i, j);
    DropStack(s, r, d, lo, i, j);
    DropPlaces(s, r, d, lo, i, j, f);
    DropMem(s, r, d, lo, i, j);
    DropTrans(s, r, q, d, lo, i, j);
    SameTablesTrans(s, r, q, d);
  }

  lemma {:induction false} DropStack(s: State, r: State, d: Frame, lo: nat, i: nat, j: nat)
    requires lo <= i * NPTENTRIES + j && i < USERPDES && j < NPTENTRIES && Pte(r.mem, d, i, j).Present?
    requires var a := i * NPTENTRIES + j;
             DroppedTrans(s, r, d, lo, a) && r.free == Stack(s.mem, d, lo, a) + s.free
    ensures [Pte(r.mem, d, i, j).frame] + r.free == Stack(s.mem, d, lo, i * NPTENTRIES + j + 1) + s.free
  {
    var a := i * NPTENTRIES + j;
    TransAt(r.mem, d, i, j);
    assert Trans(r.mem, d, a) == Trans(s.mem, d, a);
    hide Trans, Pte;
    var f := Pte(r.mem, d, i, j).frame;
    assert [f] + (Stack(s.mem, d, lo, a) + s.free) == [f] + Stack(s.mem, d, lo, a) + s.free;
  }

  lemma {:induction false} SameTablesTrans(s: State, r: State, q: State, d: Frame)
    requires SameTables(s, r, d) && SameTables(r, q, d)
    ensures SameTables(s, q, d)
  {
    hide Pde;
  }

  lemma {:induction false} DropTrans(s: State, r: State, q: State, d: Frame, lo: nat, i: nat, j: nat)
    requires DroppedTrans(s, r, d, lo, i * NPTENTRIES + j) && lo <= i * NPTENTRIES + j
    requires i < NPDENTRIES && j < NPTENTRIES && Retranslated(r, q, d, i, j, Absent)
    ensures DroppedTrans(s, q, d, lo, i * NPTENTRIES + j + 1)
  {
    hide Pte;
    forall v | 0 <= v < PAGES
      ensures Trans(q.mem, d, v) == if v == i * NPTENTRIES + j then Absent else Trans(r.mem, d, v)
    {
      PageIndex(v, i, j);
    }
  }

  lemma {:induction false} SamePage(i: nat, j: nat, k: nat, l: nat)
    requires j < NPTENTRIES && l < NPTENTRIES && i * NPTENTRIES + j == k * NPTENTRIES + l
    ensures i == k && j == l
  {
  }

  lemma {:induction false} DropPlaces(s: State, r: State, d: Frame, lo: nat, i: nat, j: nat, f: Frame)
    requires Has(s, d) && lo <= i * NPTENTRIES + j && i < USERPDES && j < NPTENTRIES
    requires r.place == FreedPlaces(s.place, d, lo, i * NPTENTRIES + j)
    requires f in r.place && r.place[f] == User(d, i, j)
    ensures r.place[f := Free] == FreedPlaces(s.place, d, lo, i * NPTENTRIES + j + 1)
  {
    hide Sound;
    var a := i * NPTENTRIES + j;
    var q := FreedPlaces(s.place, d, lo, a + 1);
    assert s.place[f] == r.place[f] && InRange(s.place[f], d, lo, a + 1);
    forall g | g in s.place && g != f
      ensures InRange(s.place[g], d, lo, a + 1) <==> InRange(s.place[g], d, lo, a)
    {
      OneUser(s, d, i, j, f, g);
    }
    hide InRange;
    assert q == r.place[f := Free];
  }

  lemma {:induction false} OneUser(s: State, d: Frame, i: nat, j: nat, f: Frame, g: Frame)
    requires Ok(s) && f in s.place && g in s.place && s.place[f] == User(d, i, j) && g != f
    ensures s.place[g].User? && s.place[g].d == d ==> s.place[g].i * NPTENTRIES + s.place[g].j != i * NPTENTRIES + j
  {
    assert FrameOk(s.mem, s.free, s.place, f);
    assert FrameOk(s.mem, s.free, s.place, g);
    hide Pte, Pde;
    if s.place[g].User? && s.place[g].d == d && s.place[g].i * NPTENTRIES + s.place[g].j == i * NPTENTRIES + j {
      SamePage(s.place[g].i, s.place[g].j, i, j);
    }
  }

  lemma {:induction false} DropMem(s: State, r: State, d: Frame, lo: nat, i: nat, j: nat)
    requires Has(r, d) && i < USERPDES && j < NPTENTRIES && lo <= i * NPTENTRIES + j && Releasable(r, d, i, j)
    requires var a := i * NPTENTRIES + j; DroppedMem(s, r, d, lo, a) && r.place == FreedPlaces(s.place, d, lo, a)
    ensures DroppedMem(s, Released(r, d, i, j), d, lo, i * NPTENTRIES + j + 1)
  {
    var q := Released(r, d, i, j);
    var f := Pte(r.mem, d, i, j).frame;
    var t := Pde(r.mem, d, i).frame;
    assert r.mem.Keys == s.place.Keys;
    hide Sound, Pte, Pde, Released, DroppedMem, InRange;
    ReleasedShape(r, d, i, j);
    UserFrame(r, d, i, j);
    TableOf(r.mem, r.free, r.place, d, i);
    hide Releasable;
    assert s.place[f] == User(d, i, j) && s.place[t] == Tab(d, i);
    hide FreedPlaces;
    DropMemStep(s, r, q, d, lo, i * NPTENTRIES + j, f, t);
  }

  lemma {:induction false} DropMemStep(s: State, r: State, q: State, d: Frame, lo: nat, a: nat, f: Frame, t: Frame)
    requires DroppedMem(s, r, d, lo, a) && lo <= a && f in s.place && t in s.place
    requires q.mem.Keys == r.mem.Keys && forall g :: g in r.mem && g != f && g != t ==> q.mem[g] == r.mem[g]
    requires s.place[f].User? && s.place[f].d == d && s.place[f].i * NPTENTRIES + s.place[f].j == a
    requires s.place[t].Tab? && s.place[t].d == d
    ensures DroppedMem(s, q, d, lo, a + 1)
  {
  }

  // ---------------------------------------------------------------- how many tables are needed

  lemma {:induction false} MissingGrows(m: Mem, d: Frame, lo: nat, a: nat, b: nat)
    requires a <= b
    ensures Missing(m, d, lo, a) <= Missing(m, d, lo, b)
    decreases b
  {
    if a < b {
      MissingGrows(m, d, lo, a, b - 1);
    }
  }

  /** With no tables there yet, one table is needed for every NPTENTRIES pages. */
  lemma {:induction false} MissingAll(m: Mem, d: Frame, lo: nat, hi: nat)
    requires lo <= hi <= PAGES && lo % NPTENTRIES == 0
    requires forall k :: lo / NPTENTRIES <= k < NPDENTRIES && k * NPTENTRIES < hi ==> Pde(m, d, k) == Absent
    ensures Missing(m, d, lo, hi) == (hi - lo + NPTENTRIES - 1) / NPTENTRIES
    decreases hi
  {
    if lo < hi {
      MissingAll(m, d, lo, hi - 1);
      CeilStep(lo, hi - 1);
      hide Pde;
      var k := (hi - 1) / NPTENTRIES;
      assert lo / NPTENTRIES <= k < NPDENTRIES && k * NPTENTRIES < hi;
    }
  }

  lemma {:induction false} CeilStep(lo: nat, a: nat)
    requires lo <= a && lo % NPTENTRIES == 0
    ensures (a + 1 - lo + NPTENTRIES - 1) / NPTENTRIES
            == (a - lo + NPTENTRIES - 1) / NPTENTRIES + (if a == lo || a % NPTENTRIES == 0 then 1 else 0)
  {
  }

  /** Mapping a range in two goes needs the same tables. */
  lemma {:induction false} MissingJoin(s: State, r: State, d: Frame, lo: nat, a: nat, b: nat)
    requires lo < a <= b <= PAGES
    requires forall k :: 0 <= k < NPDENTRIES ==> (Pde(r.mem, d, k).Present? <==> Covered(s.mem, d, lo, a, k))
    ensures Missing(s.mem, d, lo, b) == Missing(s.mem, d, lo, a) + Missing(r.mem, d, a, b)
    decreases b
  {
    hide Pde;
    if a < b {
      MissingJoin(s, r, d, lo, a, b - 1);
      var k := (b - 1) / NPTENTRIES;
      assert k < NPDENTRIES;
      assert Pde(r.mem, d, k).Present? <==> Covered(s.mem, d, lo, a, k);
      assert b - 1 > a && (b - 1) % NPTENTRIES == 0 ==> k > (a - 1) / NPTENTRIES;
    }
  }

  lemma {:induction false} CoveredJoin(s: State, r: State, d: Frame, lo: nat, a: nat, b: nat, k: nat)
    requires lo < a <= b && k < NPDENTRIES
    requires Pde(r.mem, d, k).Present? <==> Covered(s.mem, d, lo, a, k)
    ensures Covered(r.mem, d, a, b, k) <==> Covered(s.mem, d, lo, b, k)
  {
    hide Pde;
    assert a < b ==> a / NPTENTRIES <= (a - 1) / NPTENTRIES + 1;
  }

  lemma {:induction false} GrownJoin(s: State, r: State, q: State, d: Frame, lo: nat, a: nat, b: nat, p: nat, n: nat)
    requires Grown(s, r, d, lo, a, p) && Grown(r, q, d, a, b, n) && lo < a <= b <= PAGES
    ensures Grown(s, q, d, lo, b, p + n)
  {
    hide Sound, Pte, Pde, Trans, Missing, Covered, Untouched, UsersKept;
    GrownKeys(s, r, d, lo, a, p);
    MissingJoin(s, r, d, lo, a, b);
    forall k | 0 <= k < NPDENTRIES
      ensures Pde(q.mem, d, k).Present? <==> Covered(s.mem, d, lo, b, k)
    {
      CoveredJoin(s, r, d, lo, a, b, k);
    }
    var none: set<Frame> := {};
    assert none + none == none;
    UntouchedTrans(s, r, q, d, none, none);
    GrowUsersTrans(s, r, q, d);
  }

  // ---------------------------------------------------------------- freeing an address space

  /** Page `f` is part of the address space of `d`. */
  ghost predicate Belongs(p: Place, f: Frame, d: Frame) {
    (p == Dir && f == d) || (p.Tab? && p.d == d) || (p.User? && p.d == d)
  }

  /** User pages and the first `n` tables of `d` are free. */
  ghost function GonePlaces(place: Places, d: Frame, n: nat): (q: Places)
    ensures q.Keys == place.Keys
    ensures forall f :: f in place ==>
              q[f] == if (place[f].User? && place[f].d == d) || (place[f].Tab? && place[f].d == d && place[f].i < n)
                      then Free else place[f]
  {
    map f | f in place :: if (place[f].User? && place[f].d == d) || (place[f].Tab? && place[f].d == d && place[f].i < n)
                          then Free else place[f]
  }

  /** Memory as if the first `n` entries of `d` were already cleared; freevm() leaves them, to be
      overwritten with the directory itself. */
  ghost function Hollow(m: Mem, d: Frame, n: nat): (r: Mem)
    requires TableAt(m, d)
    ensures r.Keys == m.Keys && TableAt(r, d) && forall f :: f in m && f != d ==> r[f] == m[f]
    ensures forall k :: 0 <= k < NPDENTRIES ==> r[d].entries[k] == if k < n then Absent else m[d].entries[k]
  {
    m[d := Table(seq(NPDENTRIES, k requires 0 <= k < NPDENTRIES => if k < n then Absent else m[d].entries[k]))]
  }

  /** freevm() has freed the user pages and the first `n` page tables of `d`. */
  ghost predicate Gone(s: State, r: State, d: Frame, n: nat) {
    && TableAt(r.mem, d) && SameTables(s, r, d)
    && r.mem.Keys == s.mem.Keys == s.place.Keys
    && r.place == GonePlaces(s.place, d, n)
    && Sound(Hollow(r.mem, d, n), r.free, r.place)
    && (forall f :: f in s.mem && !Belongs(s.place[f], f, d) ==> r.mem[f] == s.mem[f])
    && (forall k, j :: n <= k < USERPDES && 0 <= j < NPTENTRIES ==> Pte(Hollow(r.mem, d, n), d, k, j) == Absent)
  }

  lemma {:induction false} HollowNone(m: Mem, d: Frame)
    requires TableAt(m, d)
    ensures Hollow(m, d, 0) == m
  {
    var h := Hollow(m, d, 0);
    assert h[d].entries == m[d].entries;
    assert h[d] == m[d];
  }

  lemma {:induction false} AllUsers(s: State, d: Frame)
    requires Has(s, d)
    ensures FreedPlaces(s.place, d, 0, USERPDES * NPTENTRIES) == GonePlaces(s.place, d, 0)
  {
    forall f | f in s.place && s.place[f].User? && s.place[f].d == d
      ensures InRange(s.place[f], d, 0, USERPDES * NPTENTRIES)
    {
      assert FrameOk(s.mem, s.free, s.place, f);
    }
    hide Sound;
  }

  lemma {:induction false} GoneStart(s: State, r: State, d: Frame)
    requires Has(s, d) && Dropped(s, r, d, 0, USERPDES * NPTENTRIES)
    ensures Gone(s, r, d, 0)
  {
    AllUsers(s, d);
    assert FrameOk(r.mem, r.free, r.place, d);
    HollowNone(r.mem, d);
    GoneTrans(s, r, d);
    hide Sound, Pte, Pde, Trans, GonePlaces, Hollow, DroppedTrans, FreedPlaces, Stack;
    forall f | f in s.mem && !Belongs(s.place[f], f, d)
      ensures r.mem[f] == s.mem[f]
    {
    }
  }

  lemma {:induction false} GoneTrans(s: State, r: State, d: Frame)
    requires DroppedTrans(s, r, d, 0, USERPDES * NPTENTRIES)
    ensures forall k, j :: 0 <= k < USERPDES && 0 <= j < NPTENTRIES ==> Pte(r.mem, d, k, j) == Absent
  {
    forall k, j | 0 <= k < USERPDES && 0 <= j < NPTENTRIES
      ensures Pte(r.mem, d, k, j) == Absent
    {
      TransAt(r.mem, d, k, j);
      hide Trans, Pte;
      assert Trans(r.mem, d, k * NPTENTRIES + j) == Absent;
    }
  }

  lemma {:induction false} GoneAbsent(s: State, r: State, d: Frame, n: nat)
    requires Ok(s) && Gone(s, r, d, n) && n < NPDENTRIES && Pde(r.mem, d, n) == Absent
    ensures Gone(s, r, d, n + 1)
  {
    assert Hollow(r.mem, d, n + 1) == Hollow(r.mem, d, n) by {
      HollowAbsent(r.mem, d, n);
    }
    assert GonePlaces(s.place, d, n + 1) == GonePlaces(s.place, d, n) by {
      hide Hollow, GonePlaces;
      forall f | f in s.place && s.place[f].Tab? && s.place[f].d == d
        ensures s.place[f].i != n
      {
        assert FrameOk(s.mem, s.free, s.place, f);
        assert Pde(r.mem, d, n) == Pde(s.mem, d, n);
      }
    }
    hide Sound, Pte, Pde, GonePlaces, Hollow, Belongs;
  }

  lemma {:induction false} HollowAbsent(m: Mem, d: Frame, n: nat)
    requires TableAt(m, d) && n < NPDENTRIES && Pde(m, d, n) == Absent
    ensures Hollow(m, d, n + 1) == Hollow(m, d, n)
  {
    var g := Hollow(m, d, n + 1);
    var h := Hollow(m, d, n);
    assert g[d].entries == h[d].entries;
    assert g[d] == h[d];
  }

  /** The state after freeing table `t`. */
  ghost function TableFreed(r: State, t: Frame): (q: State) {
    State(r.mem[t := Data(Junk())], [t] + r.free, r.place[t := Free])
  }

  lemma {:induction false} HollowTable(m: Mem, d: Frame, n: nat, t: Frame)
    requires TableAt(m, d) && n < NPDENTRIES && Pde(m, d, n).Present? && Pde(m, d, n).frame == t && t in m && t != d
    ensures Pde(Hollow(m, d, n), d, n) == Pde(m, d, n)
    ensures WithoutTable(Hollow(m, d, n), d, n, Junk()) == Hollow(m[t := Data(Junk())], d, n + 1)
  {
    var h := Hollow(m, d, n);
    var g := WithoutTable(h, d, n, Junk());
    var k := Hollow(m[t := Data(Junk())], d, n + 1);
    assert g[d].entries == k[d].entries;
    assert g[d] == k[d];
    forall f | f in m
      ensures g[f] == k[f]
    {
    }
  }

  lemma {:induction false} HollowDir(m: Mem, free: seq<Frame>, place: Places, d: Frame, n: nat)
    requires TableAt(m, d) && n < NPDENTRIES && Pde(m, d, n).Present?
    requires Sound(Hollow(m, d, n), free, place) && IsDir(place, d)
    ensures var t := Pde(m, d, n).frame; t in place && place[t] == Tab(d, n) && t != d && t in m
    ensures Pde(Hollow(m, d, n), d, n) == Pde(m, d, n)
  {
    assert Pde(Hollow(m, d, n), d, n) == Pde(m, d, n);
    TableOf(Hollow(m, d, n), free, place, d, n);
  }

  lemma {:induction false} FreeTable(m: Mem, free: seq<Frame>, place: Places, d: Frame, n: nat)
    requires TableAt(m, d) && n < NPDENTRIES && Pde(m, d, n).Present?
    requires Sound(Hollow(m, d, n), free, place) && IsDir(place, d)
    requires n < USERPDES ==> forall j :: 0 <= j < NPTENTRIES ==> Pte(Hollow(m, d, n), d, n, j) == Absent
    ensures var t := Pde(m, d, n).frame;
            && t != d && t in m && TableAt(m[t := Data(Junk())], d)
            && Sound(Hollow(m[t := Data(Junk())], d, n + 1), [t] + free, place[t := Free])
  {
    var t := Pde(m, d, n).frame;
    var h := Hollow(m, d, n);
    HollowDir(m, free, place, d, n);
    HollowTable(m, d, n, t);
    hide Pte, Hollow;
    DropTable(h, free, place, d, n, Junk());
    var g := WithoutTable(h, d, n, Junk());
    var held := place[t := Held];
    Give(g, free, held, t, Junk());
    assert held[t := Free] == place[t := Free];
    assert g[t := Data(Junk())] == g;
  }

  lemma {:induction false} FreeTableTrans(m: Mem, free: seq<Frame>, place: Places, d: Frame, n: nat, k: nat, j: nat)
    requires TableAt(m, d) && n < k < NPDENTRIES && Pde(m, d, n).Present?
    requires Sound(Hollow(m, d, n), free, place) && IsDir(place, d)
    requires var t := Pde(m, d, n).frame; t != d && t in m && TableAt(m[t := Data(Junk())], d)
    ensures var t := Pde(m, d, n).frame;
            Pte(Hollow(m[t := Data(Junk())], d, n + 1), d, k, j) == Pte(Hollow(m, d, n), d, k, j)
  {
    var t := Pde(m, d, n).frame;
    HollowDir(m, free, place, d, n);
    HollowTable(m, d, n, t);
    PteWithoutTable(Hollow(m, d, n), free, place, d, n, Junk(), d, k, j);
  }

  lemma {:induction false} GoneTable(s: State, r: State, d: Frame, n: nat)
    requires Has(s, d) && Gone(s, r, d, n) && n < NPDENTRIES && Pde(r.mem, d, n).Present?
    ensures Pde(r.mem, d, n).frame in r.mem
    ensures Gone(s, TableFreed(r, Pde(r.mem, d, n).frame), d, n + 1)
  {
    var t := Pde(r.mem, d, n).frame;
    var q := TableFreed(r, t);
    assert IsDir(r.place, d);
    hide Ok, Pte, Pde, Hollow, GonePlaces;
    HollowDir(r.mem, r.free, r.place, d, n);
    FreeTable(r.mem, r.free, r.place, d, n);
    GoneWasTable(s, d, n, t);
    GoneTablePlaces(s, d, n, t);
    GoneTableTables(s, r, q, d, t);
    var h := Hollow(q.mem, d, n + 1);
    forall k, j | n + 1 <= k < USERPDES && 0 <= j < NPTENTRIES
      ensures Pte(h, d, k, j) == Absent
    {
      FreeTableTrans(r.mem, r.free, r.place, d, n, k, j);
    }
    hide Sound;
    assert forall f :: f in s.mem && !Belongs(s.place[f], f, d) ==> q.mem[f] == s.mem[f];
  }

  lemma {:induction false} GoneWasTable(s: State, d: Frame, n: nat, t: Frame)
    requires t in s.place && GonePlaces(s.place, d, n)[t] == Tab(d, n)
    ensures s.place[t] == Tab(d, n)
  {
  }

  lemma {:induction false} GoneTableTables(s: State, r: State, q: State, d: Frame, t: Frame)
    requires TableAt(r.mem, d) && SameTables(s, r, d) && t != d && q.mem == r.mem[t := Data(Junk())]
    ensures SameTables(s, q, d)
  {
    forall k | 0 <= k < NPDENTRIES
      ensures Pde(q.mem, d, k) == Pde(r.mem, d, k)
    {
    }
  }

  lemma {:induction false} GoneTablePlaces(s: State, d: Frame, n: nat, t: Frame)
    requires Ok(s) && t in s.place && s.place[t] == Tab(d, n)
    ensures GonePlaces(s.place, d, n)[t := Free] == GonePlaces(s.place, d, n + 1)
  {
    assert FrameOk(s.mem, s.free, s.place, t);
    forall f | f in s.place
      ensures s.place[f] == Tab(d, n) ==> f == t
    {
      assert FrameOk(s.mem, s.free, s.place, f);
    }
    hide Sound;
  }

  /** Everything that belonged to `d` is free; nothing else has changed. */
  ghost function Without(place: Places, d: Frame): (q: Places)
    ensures q.Keys == place.Keys
    ensures forall f :: f in place ==> q[f] == if Belongs(place[f], f, d) then Free else place[f]
  {
    map f | f in place :: if Belongs(place[f], f, d) then Free else place[f]
  }

  ghost predicate Erased(s: State, r: State, d: Frame) {
    && Ok(r) && r.mem.Keys == s.mem.Keys == s.place.Keys
    && r.place == Without(s.place, d)
    && forall f :: f in s.mem && !Belongs(s.place[f], f, d) ==> r.mem[f] == s.mem[f]
  }

  lemma {:induction false} GoneEnd(s: State, r: State, d: Frame)
    requires Has(s, d) && Gone(s, r, d, NPDENTRIES)
    ensures Erased(s, TableFreed(r, d), d)
  {
    var q := TableFreed(r, d);
    assert IsDir(r.place, d);
    LastPlaces(s, d);
    hide Pte, Pde, GonePlaces, Without, Ok;
    FreeDir(r.mem, r.free, r.place, d);
    hide Sound, Hollow;
    forall f | f in s.mem && !Belongs(s.place[f], f, d)
      ensures q.mem[f] == s.mem[f]
    {
    }
    OkIs(q);
  }

  lemma {:induction false} OkIs(q: State)
    requires Sound(q.mem, q.free, q.place)
    ensures Ok(q)
  {
  }

  lemma {:induction false} FreeDir(m: Mem, free: seq<Frame>, place: Places, d: Frame)
    requires TableAt(m, d) && Sound(Hollow(m, d, NPDENTRIES), free, place) && IsDir(place, d)
    ensures Sound(m[d := Data(Junk())], [d] + free, place[d := Free])
  {
    var h := Hollow(m, d, NPDENTRIES);
    assert forall i :: 0 <= i < NPDENTRIES ==> Pde(h, d, i) == Absent;
    hide Pte, Pde;
    DropDir(h, free, place, d, Junk());
    var held := place[d := Held];
    var g := h[d := Data(Junk())];
    Give(g, free, held, d, Junk());
    hide Sound;
    assert held[d := Free] == place[d := Free];
    assert g[d := Data(Junk())] == m[d := Data(Junk())];
  }

  lemma {:induction false} LastPlaces(s: State, d: Frame)
    requires Has(s, d)
    ensures GonePlaces(s.place, d, NPDENTRIES)[d := Free] == Without(s.place, d)
  {
    forall f | f in s.place && s.place[f].Tab? && s.place[f].d == d
      ensures s.place[f].i < NPDENTRIES
    {
      assert FrameOk(s.mem, s.free, s.place, f);
    }
    hide Sound;
  }
}
