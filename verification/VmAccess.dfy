/** What a process can do with its address space: the permissions the hardware works out from both levels of the
    page tables, and the memory a process sees through them. */
module VmAccess {
  import opened Options
  import opened Blocks
  import opened Paging
  import opened VmSteps
  import opened VmRanges
  import opened Vm

  /** What may be done with a page: nothing, or access to a frame, writing it, and doing so in user mode. */
  datatype Access = NoAccess | Access(frame: Frame, write: bool, user: bool)

  predicate Bit(flags: nat, bit: nat)
    requires bit > 0
  {
    flags / bit % 2 == 1
  }

  /** The hardware grants what both the directory entry and the table entry grant. */
  function AccessAt(m: Mem, d: Frame, v: nat): (a: Access) {
    match Pde(m, d, v / NPTENTRIES)
    case Absent => NoAccess
    case Present(t, above) =>
      match Trans(m, d, v)
      case Absent => NoAccess
      case Present(f, flags) => Access(f, Bit(above, PTE_W) && Bit(flags, PTE_W), Bit(above, PTE_U) && Bit(flags, PTE_U))
  }

  /** Because directory entries restrict nothing, a page's own entry decides. */
  lemma {:induction false} EntryDecides(s: State, d: Frame, v: nat)
    requires Has(s, d) && v < PAGES
    ensures AccessAt(s.mem, d, v)
            == match Trans(s.mem, d, v)
               case Absent => NoAccess
               case Present(f, flags) => Access(f, Bit(flags, PTE_W), Bit(flags, PTE_U))
  {
    assert FrameOk(s.mem, s.free, s.place, d);
    assert v / NPTENTRIES < NPDENTRIES;
    assert Bit(PTE_W + PTE_U, PTE_W) && Bit(PTE_W + PTE_U, PTE_U);
    NoTableNoPage(s.mem, d, v);
    hide Sound, Trans, Bit, FrameOk;
  }

  // ---------------------------------------------------------------- private memory

  ghost predicate PageShows(s: State, e: Entry, v: nat, p: map<nat, seq<Byte>>) {
    if v in p then e.Present? && e.flags == PTE_W + PTE_U && e.frame in s.mem && s.mem[e.frame] == Data(p[v])
    else e == Absent
  }

  /** Address space `d` shows its process the pages `p`, and above them the kernel. */
  ghost predicate Shows(s: State, d: Frame, p: map<nat, seq<Byte>>, data: nat) {
    && Has(s, d) && (forall v :: v in p ==> v < KB)
    && (forall v: nat :: v < KB ==> PageShows(s, Trans(s.mem, d, v), v, p))
    && (forall v :: KB <= v < PAGES ==> Trans(s.mem, d, v) == KernelEntry(v, data))
  }

  /** A process may read and write the pages it has, and no others; the kernel's pages are not for it, and the
      kernel itself may write all of them but its text. */
  lemma {:induction false} UserAccess(s: State, d: Frame, p: map<nat, seq<Byte>>, data: nat, v: nat)
    requires Shows(s, d, p, data) && v < PAGES && KLINK < data < KTOP
    ensures var a := AccessAt(s.mem, d, v);
            && (v in p <==> a.Access? && a.user)
            && (v in p ==> a.write && a.frame in s.mem && s.mem[a.frame] == Data(p[v]))
            && (v !in p ==> a == if KB <= v < KTOP then Access(v - KB, !(KLINK <= v < data), false)
                                 else if DEV <= v then Access(v, true, false) else NoAccess)
  {
    hide Has, Trans;
    EntryDecides(s, d, v);
    assert v < KB ==> PageShows(s, Trans(s.mem, d, v), v, p);
    assert Bit(PTE_W + PTE_U, PTE_W) && Bit(PTE_W + PTE_U, PTE_U) && Bit(PTE_W, PTE_W) && !Bit(PTE_W, PTE_U) && !Bit(0, PTE_W) && !Bit(0, PTE_U);
    hide Bit;
  }

  /** No page that a process can get at is anybody else's, or another one of its own, or free, or part of the
      page tables. */
  lemma {:induction false} Isolation(s: State, d: Frame, p: map<nat, seq<Byte>>, v: nat, e: Frame, q: map<nat, seq<Byte>>, w: nat, data: nat)
    requires Shows(s, d, p, data) && Shows(s, e, q, data) && KLINK < data < KTOP && v < PAGES && w < PAGES
    requires AccessAt(s.mem, d, v).Access? && AccessAt(s.mem, d, v).user && AccessAt(s.mem, e, w).Access? && AccessAt(s.mem, e, w).user
    ensures AccessAt(s.mem, d, v).frame == AccessAt(s.mem, e, w).frame <==> d == e && v == w
    ensures AccessAt(s.mem, d, v).frame !in s.free && AccessAt(s.mem, d, v).frame in s.mem && s.mem[AccessAt(s.mem, d, v).frame].Data?
  {
    hide Has, Trans, AccessAt, Shows;
    UserAccess(s, d, p, data, v);
    UserAccess(s, e, q, data, w);
    ShownAt(s, d, p, data, v);
    ShownAt(s, e, q, data, w);
  }

  lemma {:induction false} ShownAt(s: State, d: Frame, p: map<nat, seq<Byte>>, data: nat, v: nat)
    requires Shows(s, d, p, data) && v in p
    ensures v < KB && Trans(s.mem, d, v).Present? && AccessAt(s.mem, d, v).Access?
    ensures var f := Trans(s.mem, d, v).frame;
            && AccessAt(s.mem, d, v).frame == f && f !in s.free && f in s.mem && s.mem[f] == Data(p[v])
            && f in s.place && s.place[f] == User(d, v / NPTENTRIES, v % NPTENTRIES)
  {
    assert PageShows(s, Trans(s.mem, d, v), v, p);
    EntryDecides(s, d, v);
    UserFrame(s, d, v / NPTENTRIES, v % NPTENTRIES);
  }

  // ---------------------------------------------------------------- what the operations do to it

  lemma {:induction false} ShowsMade(s: State, r: State, d: Frame, data: nat)
    requires SpaceMade(s, r, d, data) && KLINK < data < KTOP
    ensures Shows(r, d, map[], data)
  {
    hide Has, Trans;
  }

  /** Work on another address space leaves this one as it is. */
  lemma {:induction false} ShowsKept(s: State, r: State, c: Frame, x: set<Frame>, d: Frame, p: map<nat, seq<Byte>>, data: nat)
    requires Shows(s, d, p, data) && d != c && Ok(r) && Untouched(s, r, c, x)
    requires forall f :: f in x ==> f in s.place && s.place[f] == Free
    ensures Shows(r, d, p, data)
  {
    hide Ok, Trans, Pde, Untouched;
    OtherSpace(s, r, c, d, 0, x);
    forall v: nat | v < PAGES
      ensures Trans(r.mem, d, v) == Trans(s.mem, d, v)
      ensures v < KB ==> PageShows(r, Trans(r.mem, d, v), v, p)
    {
      OtherSpace(s, r, c, d, v, x);
      assert v < KB ==> PageShows(s, Trans(s.mem, d, v), v, p);
    }
  }

  function NewPages(lo: nat, hi: nat): (p: map<nat, seq<Byte>>) {
    map v | v in Frames(lo, hi) :: Zero()
  }

  function Except(p: map<nat, seq<Byte>>, lo: nat, hi: nat): (q: map<nat, seq<Byte>>) {
    map v: nat | v in p && !(lo <= v < hi) :: p[v]
  }

  lemma {:induction false} ShowsGrown(s: State, r: State, d: Frame, p: map<nat, seq<Byte>>, data: nat, lo: nat, hi: nat)
    requires Shows(s, d, p, data) && lo <= hi <= KB && (forall v :: lo <= v < hi ==> v !in p)
    requires Grown(s, r, d, lo, hi, hi - lo) && Filled(s, r, d, lo, hi, AllocFlags(), AllocBytes())
    ensures Shows(r, d, p + NewPages(lo, hi), data)
  {
    hide Trans, Grown, Filled, PageShows, Has, Frames;
    forall v: nat | v < KB
      ensures PageShows(r, Trans(r.mem, d, v), v, p + NewPages(lo, hi))
    {
      if lo <= v < hi {
        GrownPage(s, r, d, p, lo, hi, v);
      } else {
        GrownOld(s, r, d, p, data, lo, hi, v);
      }
    }
    forall v | KB <= v < PAGES
      ensures Trans(r.mem, d, v) == KernelEntry(v, data)
    {
      GrownAt(s, r, d, lo, hi, v);
    }
    GrownDir(s, r, d, lo, hi, hi - lo);
  }

  lemma {:induction false} GrownPage(s: State, r: State, d: Frame, p: map<nat, seq<Byte>>, lo: nat, hi: nat, v: nat)
    requires lo <= v < hi && v !in p && Filled(s, r, d, lo, hi, AllocFlags(), AllocBytes())
    ensures PageShows(r, Trans(r.mem, d, v), v, p + NewPages(lo, hi))
  {
    hide Trans, Frames, Zero;
    assert PageHolds(s, r, Trans(r.mem, d, v), AllocFlags()(v), AllocBytes()(v));
  }

  lemma {:induction false} GrownOld(s: State, r: State, d: Frame, p: map<nat, seq<Byte>>, data: nat, lo: nat, hi: nat, v: nat)
    requires Shows(s, d, p, data) && lo <= hi <= KB && v < KB && !(lo <= v < hi) && Grown(s, r, d, lo, hi, hi - lo)
    ensures PageShows(r, Trans(r.mem, d, v), v, p + NewPages(lo, hi))
  {
    hide Trans, Has, Grown, Frames, Zero;
    assert PageShows(s, Trans(s.mem, d, v), v, p);
    GrownAt(s, r, d, lo, hi, v);
    if v in p {
      ShownAt(s, d, p, data, v);
      GrownMem(s, r, d, lo, hi, Trans(s.mem, d, v).frame);
    }
  }

  lemma {:induction false} GrownAt(s: State, r: State, d: Frame, lo: nat, hi: nat, v: nat)
    requires lo <= hi && Grown(s, r, d, lo, hi, hi - lo) && v < PAGES && !(lo <= v < hi)
    ensures Trans(r.mem, d, v) == Trans(s.mem, d, v)
  {
    hide Trans, Has, Untouched, UsersKept, Covered;
  }

  lemma {:induction false} GrownMem(s: State, r: State, d: Frame, lo: nat, hi: nat, f: Frame)
    requires lo <= hi && Grown(s, r, d, lo, hi, hi - lo) && f in s.place && s.place[f].User? && s.place[f].d == d && f in s.mem
    ensures f in r.mem && r.mem[f] == s.mem[f]
  {
    hide Trans, Has, Covered, Missing;
  }

  lemma {:induction false} ShowsRestored(s: State, r: State, d: Frame, p: map<nat, seq<Byte>>, data: nat)
    requires Shows(s, d, p, data) && Restored(s, r, d)
    ensures Shows(r, d, p, data)
  {
    hide Has, Trans;
    forall v: nat | v < KB
      ensures PageShows(r, Trans(r.mem, d, v), v, p)
    {
      assert PageShows(s, Trans(s.mem, d, v), v, p);
      if v in p {
        ShownAt(s, d, p, data, v);
      }
    }
  }

  lemma {:induction false} ShowsDropped(s: State, r: State, d: Frame, p: map<nat, seq<Byte>>, data: nat, lo: nat, hi: nat)
    requires Shows(s, d, p, data) && Dropped(s, r, d, lo, hi) && hi <= KB
    ensures Shows(r, d, Except(p, lo, hi), data)
  {
    hide Has, Trans, SameTables, Stack, FreedPlaces;
    var q := Except(p, lo, hi);
    forall v: nat | v < KB
      ensures PageShows(r, Trans(r.mem, d, v), v, q)
    {
      assert PageShows(s, Trans(s.mem, d, v), v, p);
      if v in q {
        ShownAt(s, d, p, data, v);
        assert v / NPTENTRIES * NPTENTRIES + v % NPTENTRIES == v;
      }
    }
  }

  /** A copy shows the same pages. */
  lemma {:induction false} ShowsCopied(s: State, r: State, d: Frame, c: Frame, n: nat, p: map<nat, seq<Byte>>, data: nat)
    requires Shows(s, d, p, data) && Copied(s, r, d, c, n, data) && n <= KB && KLINK < data < KTOP
    requires forall v: nat :: v in p <==> v < n
    ensures Shows(r, c, p, data)
  {
    hide Has, Trans, Untouched;
    forall v: nat | v < KB
      ensures PageShows(r, Trans(r.mem, c, v), v, p)
    {
      if v < n {
        assert PageHolds(s, r, Trans(r.mem, c, v), CopyFlags(s, d)(v), CopyBytes(s, d)(v));
        assert PageShows(s, Trans(s.mem, d, v), v, p);
      }
    }
  }

  /** Whatever the parent may do with a page, be it its own or one it may not use, the child may do with its copy,
      which is on another frame and has the same contents. */
  lemma {:induction false} CopiedAccess(s: State, r: State, d: Frame, c: Frame, n: nat, data: nat, v: nat)
    requires Has(s, d) && Copied(s, r, d, c, n, data) && v < n <= KB && Trans(s.mem, d, v).Present?
    ensures var a, b := AccessAt(s.mem, d, v), AccessAt(r.mem, c, v);
            && a.Access? && b.Access? && b.write == a.write && b.user == a.user && b.frame != a.frame
            && a.frame in s.mem && b.frame in r.mem && r.mem[b.frame] == s.mem[a.frame]
            && AccessAt(r.mem, d, v) == a
  {
    hide Has, Trans, Untouched, AccessAt, Bit;
    assert PageHolds(s, r, Trans(r.mem, c, v), CopyFlags(s, d)(v), CopyBytes(s, d)(v));
    CopiedAt(s, d, v, Trans(r.mem, c, v).frame);
    EntryDecides(s, d, v);
    EntryDecides(r, c, v);
    DirNotFree(s, d, c);
    OtherSpace(s, r, c, d, v, {});
    SameAccess(s, r, d, v);
  }

  lemma {:induction false} DirNotFree(s: State, d: Frame, c: Frame)
    requires Has(s, d) && c in s.place && s.place[c] == Free
    ensures c != d
  {
  }

  lemma {:induction false} SameAccess(s: State, r: State, d: Frame, v: nat)
    requires Pde(r.mem, d, v / NPTENTRIES) == Pde(s.mem, d, v / NPTENTRIES) && Trans(r.mem, d, v) == Trans(s.mem, d, v)
    ensures AccessAt(r.mem, d, v) == AccessAt(s.mem, d, v)
  {
    hide Pde, Trans, Bit;
  }

  /** The parent's page is in use, so it is not one that was free. */
  lemma {:induction false} CopiedAt(s: State, d: Frame, v: nat, f: Frame)
    requires Has(s, d) && v < KB && Trans(s.mem, d, v).Present? && f in s.place && s.place[f] == Free
    ensures var g := Trans(s.mem, d, v).frame; g != f && g in s.mem && s.mem[g].Data?
  {
    UserFrame(s, d, v / NPTENTRIES, v % NPTENTRIES);
  }

  lemma {:induction false} ErasedUntouched(s: State, r: State, d: Frame)
    requires Erased(s, r, d)
    ensures Ok(r) && Untouched(s, r, d, {})
  {
    hide Ok;
  }

  lemma {:induction false} ReturnedUntouched(s: State, r: State, x: set<Frame>, c: Frame)
    requires Returned(s, r, x)
    ensures Ok(r) && Untouched(s, r, c, x) && forall f :: f in x ==> f in s.place && s.place[f] == Free
  {
    hide FrameOk;
  }

  // ---------------------------------------------------------------- a process uses its memory

  /** The contents of page `f` are overwritten. */
  function Stored(s: State, f: Frame, bytes: seq<Byte>): (r: State) {
    s.(mem := s.mem[f := Data(bytes)])
  }

  /** Only tables matter for translation. */
  lemma {:induction false} StoredTrans(s: State, f: Frame, bytes: seq<Byte>, d: Frame, i: nat, j: nat)
    requires f in s.mem && s.mem[f].Data?
    ensures var r := Stored(s, f, bytes);
            && (TableAt(r.mem, d) <==> TableAt(s.mem, d))
            && Pde(r.mem, d, i) == Pde(s.mem, d, i) && Pte(r.mem, d, i, j) == Pte(s.mem, d, i, j)
  {
  }

  lemma {:induction false} StoredFrame(s: State, f: Frame, bytes: seq<Byte>, g: Frame)
    requires f in s.mem && s.mem[f].Data? && g in s.place && FrameOk(s.mem, s.free, s.place, g)
    ensures FrameOk(Stored(s, f, bytes).mem, s.free, s.place, g)
  {
    var r := Stored(s, f, bytes);
    hide Pde, Pte;
    match s.place[g] {
      case Free =>
      case Held =>
      case Dir =>
        StoredTrans(s, f, bytes, g, 0, 0);
        forall i: nat
          ensures Pde(r.mem, g, i) == Pde(s.mem, g, i)
        {
          StoredTrans(s, f, bytes, g, i, 0);
        }
        forall i: nat, j: nat
          ensures Pte(r.mem, g, i, j) == Pte(s.mem, g, i, j)
        {
          StoredTrans(s, f, bytes, g, i, j);
        }
        assert DirOk(r.mem, s.place, g);
        assert UserPtesOk(r.mem, s.place, g);
      case Tab(d, i) =>
        StoredTrans(s, f, bytes, d, i, 0);
        StoredTrans(s, f, bytes, g, 0, 0);
      case User(d, i, j) =>
        StoredTrans(s, f, bytes, d, i, j);
    }
  }

  lemma {:induction false} StoredOk(s: State, f: Frame, bytes: seq<Byte>)
    requires Ok(s) && f in s.mem && s.mem[f].Data?
    ensures Ok(Stored(s, f, bytes))
  {
    hide FrameOk;
    var r := Stored(s, f, bytes);
    forall g | g in s.place
      ensures FrameOk(r.mem, r.free, r.place, g)
    {
      StoredFrame(s, f, bytes, g);
    }
  }

  /** A store changes the page stored to, for this process, and nothing that anybody else sees. */
  lemma {:induction false} ShowsStored(s: State, d: Frame, p: map<nat, seq<Byte>>, data: nat, v: nat, bytes: seq<Byte>)
    requires Shows(s, d, p, data) && v in p
    ensures AccessAt(s.mem, d, v).Access?
    ensures var f := AccessAt(s.mem, d, v).frame;
            && f in s.mem && s.mem[f].Data?
            && Shows(Stored(s, f, bytes), d, p[v := bytes], data)
            && Untouched(s, Stored(s, f, bytes), d, {})
  {
    ShownAt(s, d, p, data, v);
    var f := Trans(s.mem, d, v).frame;
    var r := Stored(s, f, bytes);
    StoredOk(s, f, bytes);
    hide Ok;
    forall w: nat | w < PAGES
      ensures Trans(r.mem, d, w) == Trans(s.mem, d, w)
      ensures w < KB ==> PageShows(r, Trans(r.mem, d, w), w, p[v := bytes])
    {
      StoredTrans(s, f, bytes, d, w / NPTENTRIES, w % NPTENTRIES);
      if w < KB {
        assert PageShows(s, Trans(s.mem, d, w), w, p);
        if w in p {
          ShownAt(s, d, p, data, w);
        }
      }
    }
    StoredKeys(s, d, f, bytes);
  }

  lemma {:induction false} StoredKeys(s: State, d: Frame, f: Frame, bytes: seq<Byte>)
    requires Ok(s) && f in s.mem && f in s.place && s.place[f].User? && s.place[f].d == d
    ensures Untouched(s, Stored(s, f, bytes), d, {})
  {
    hide FrameOk;
  }
}
