/** The user-level memory allocator of umalloc.c. */
module Umalloc {
  import opened Options
  import opened FreeList

  const UINT := 0x1_0000_0000
  const HEADER := 8  // sizeof(Header)

  /** Units for `nbytes` of payload, in 32-bit arithmetic: rounded up, plus one for the header. */
  function Nunits(nbytes: nat): (n: nat)
    ensures n >= 1
  {
    (nbytes + HEADER - 1) % UINT / HEADER + 1
  }

  /** The block malloc carves is large enough for the request exactly when rounding up does not wrap. */
  lemma {:induction false} RoomForRequest(nbytes: nat)
    requires nbytes < UINT
    ensures (Nunits(nbytes) - 1) * HEADER >= nbytes <==> nbytes <= UINT - HEADER
  {
  }

  /** The largest request rounds to a single unit, the header. */
  lemma {:induction false} TooSmallExample()
    ensures Nunits(UINT - 1) == 1
  {
  }

  /** The heap: a proper free list, and blocks handed out that overlap neither one another nor any
      free block. Everything lies between `base` and `top`. */
  ghost predicate IsHeap(mem: Mem, base: int, top: int, nodes: seq<int>, live: seq<Cell>) {
    && IsList(mem, base, nodes) && InMem(mem, nodes)
    && base < top && Below(mem, nodes, top)
    && (forall i :: 0 <= i < |live| ==> Handed(mem, base, top, nodes, live[i]))
    && (forall i, j :: 0 <= i < j < |live| ==> Apart(live[i], live[j]))
  }

  ghost predicate Below(mem: Mem, nodes: seq<int>, top: int)
    requires InMem(mem, nodes)
  {
    forall k :: 1 <= k < |nodes| ==> nodes[k] + mem[nodes[k]].size <= top
  }

  ghost predicate Handed(mem: Mem, base: int, top: int, nodes: seq<int>, c: Cell)
    requires InMem(mem, nodes)
  {
    && c.addr in mem && mem[c.addr].size == c.units && c.units >= 1
    && base < c.addr && c.addr + c.units <= top && Clear(mem, nodes, c)
  }

  function LiveUnits(live: seq<Cell>): (n: int) {
    if live == [] then 0 else LiveUnits(live[..|live| - 1]) + live[|live| - 1].units
  }

  lemma {:induction false} LiveUnitsRemove(live: seq<Cell>, i: nat)
    requires i < |live|
    ensures LiveUnits(live[..i] + live[i + 1..]) == LiveUnits(live) - live[i].units
  {
    var n := |live| - 1;
    if i == n {
      assert live[..i] + live[i + 1..] == live[..n];
    } else {
      var r := live[..i] + live[i + 1..];
      assert r[..|r| - 1] == live[..n][..i] + live[..n][i + 1..];
      LiveUnitsRemove(live[..n], i);
    }
  }

  /** Position after which a block at `b` belongs. */
  ghost function Place(nodes: seq<int>, b: int): (j: int)
    requires |nodes| > 0 && nodes[0] < b
    ensures 0 <= j < |nodes| && nodes[j] < b
    ensures j + 1 < |nodes| ==> b <= nodes[j + 1]
  {
    if nodes[|nodes| - 1] < b then |nodes| - 1 else Place(nodes[..|nodes| - 1], b)
  }

  /** free()'s search stops at the block's place and nowhere else. */
  lemma {:induction false} SearchStep(mem: Mem, base: int, nodes: seq<int>, k: int, b: int)
    requires IsList(mem, base, nodes) && 0 <= k < |nodes| && base < b && b !in nodes
    ensures var p, j := nodes[k], Place(nodes, b);
            p in mem &&
            var found := (b > p && b < mem[p].ptr) || (p >= mem[p].ptr && (b > p || b < mem[p].ptr));
            && (found <==> k == j)
            && mem[p].ptr == NextOf(nodes, k)
            && Between(nodes, j, b)
  {
    assert NodeOk(mem, nodes, k);
    var j := Place(nodes, b);
    assert j + 1 < |nodes| ==> nodes[j + 1] in nodes;
  }

  /** A block that is neither free nor handed out: its header is set, and it overlaps nothing. */
  ghost predicate Loose(mem: Mem, base: int, top: int, nodes: seq<int>, live: seq<Cell>, b: int)
    requires InMem(mem, nodes)
  {
    && b in mem && Handed(mem, base, top, nodes, Cell(b, mem[b].size))
    && forall i :: 0 <= i < |live| ==> Apart(live[i], Cell(b, mem[b].size))
  }

  lemma {:induction false} LooseFits(mem: Mem, base: int, top: int, nodes: seq<int>, live: seq<Cell>, b: int)
    requires IsHeap(mem, base, top, nodes, live) && Loose(mem, base, top, nodes, live, b)
    ensures b !in nodes && |nodes| > 0 && nodes[0] < b && Fits(mem, nodes, Place(nodes, b), b)
  {
    forall k | 0 <= k < |nodes|
      ensures nodes[k] != b
    {
      assert NodeOk(mem, nodes, k);
      assert k >= 1 ==> Apart(Cell(b, mem[b].size), FreeCell(mem, nodes, k));
    }
    var j := Place(nodes, b);
    if j >= 1 {
      assert Apart(Cell(b, mem[b].size), FreeCell(mem, nodes, j));
    }
    if j + 1 < |nodes| {
      assert NodeOk(mem, nodes, j + 1);
      assert Apart(Cell(b, mem[b].size), FreeCell(mem, nodes, j + 1));
    }
  }

  lemma {:induction false} LinkInMembers(mem: Mem, nodes: seq<int>, k: int, b: int, j: int)
    requires 0 <= k < |nodes| && InMem(mem, nodes) && b in mem && 0 <= j < |LinkIn(mem, nodes, k, b).1|
    ensures LinkIn(mem, nodes, k, b).1[j] in nodes || LinkIn(mem, nodes, k, b).1[j] == b
  {
    var r := LinkIn(mem, nodes, k, b).1;
    var own := |Own(mem, nodes, k, b)|;
    if j <= k {
      assert r[j] == nodes[j];
    } else if j > k + own {
      assert r[j] in Beyond(mem, nodes, k, b);
    }
  }

  lemma {:induction false} LinkInBelow(mem: Mem, base: int, top: int, nodes: seq<int>, k: int, b: int)
    requires IsList(mem, base, nodes) && Fits(mem, nodes, k, b) && Below(mem, nodes, top) && base < b && b + mem[b].size <= top
    ensures var (mem', nodes') := LinkIn(mem, nodes, k, b);
            InMem(mem', nodes') && Below(mem', nodes', top)
  {
    var c := Cell(top, 1);
    LinkInClear(mem, base, nodes, k, b, c);
    hide IsList, LinkIn;
    var (mem', nodes') := LinkIn(mem, nodes, k, b);
    forall j | 1 <= j < |nodes'|
      ensures nodes'[j] + mem'[nodes'[j]].size <= top
    {
      assert Apart(c, FreeCell(mem', nodes', j));
      LinkInMembers(mem, nodes, k, b, j);
      LinkedBelow(mem, base, top, nodes, nodes'[j], b);
    }
  }

  lemma {:induction false} LinkedBelow(mem: Mem, base: int, top: int, nodes: seq<int>, a: int, b: int)
    requires IsList(mem, base, nodes) && InMem(mem, nodes) && Below(mem, nodes, top) && base < b < top
    requires a in nodes || a == b
    ensures a < top
  {
    if a in nodes {
      var k :| 0 <= k < |nodes| && nodes[k] == a;
      assert NodeOk(mem, nodes, k);
    }
  }

  /** A block handed out stays so while another is freed. */
  lemma {:induction false} HandedKept(mem: Mem, base: int, top: int, nodes: seq<int>, k: int, b: int, c: Cell)
    requires IsList(mem, base, nodes) && Fits(mem, nodes, k, b) && Handed(mem, base, top, nodes, c) && Apart(c, Cell(b, mem[b].size))
    ensures var (mem', nodes') := LinkIn(mem, nodes, k, b);
            InMem(mem', nodes') && Handed(mem', base, top, nodes', c)
  {
    LinkInClear(mem, base, nodes, k, b, c);
    LinkInHeaders(mem, base, nodes, k, b);
    assert NodeOk(mem, nodes, k);
    assert k >= 1 ==> Apart(c, FreeCell(mem, nodes, k));
  }

  /** Freeing a loose block keeps the heap a heap. */
  lemma {:induction false} LinkInHeap(mem: Mem, base: int, top: int, nodes: seq<int>, live: seq<Cell>, b: int)
    requires IsHeap(mem, base, top, nodes, live) && Loose(mem, base, top, nodes, live, b)
    ensures |nodes| > 0 && nodes[0] < b && Fits(mem, nodes, Place(nodes, b), b)
    ensures var (mem', nodes') := LinkIn(mem, nodes, Place(nodes, b), b);
            IsHeap(mem', base, top, nodes', live) && Units(mem', nodes') == Units(mem, nodes) + mem[b].size
  {
    LooseFits(mem, base, top, nodes, live, b);
    var k := Place(nodes, b);
    hide Fits, IsList, LinkIn, Place;
    LinkInList(mem, base, nodes, k, b);
    LinkInBelow(mem, base, top, nodes, k, b);
    LinkInUnits(mem, base, nodes, k, b);
    hide Handed, Below;
    var (mem', nodes') := LinkIn(mem, nodes, k, b);
    forall i | 0 <= i < |live|
      ensures Handed(mem', base, top, nodes', live[i])
    {
      HandedKept(mem, base, top, nodes, k, b, live[i]);
    }
  }

  // ---------------------------------------------------------------- taking a block

  lemma {:induction false} FreeApart(mem: Mem, base: int, nodes: seq<int>, j: int, k: int)
    requires IsList(mem, base, nodes) && InMem(mem, nodes) && 1 <= j < k < |nodes|
    ensures nodes[j] + mem[nodes[j]].size < nodes[k] && mem[nodes[j]].size >= 1
  {
    assert NodeOk(mem, nodes, j);
    assert j + 1 < k ==> nodes[j + 1] < nodes[k];
  }

  /** The memory after malloc() unlinks the block at position `k`. */
  function Unlinked(mem: Mem, nodes: seq<int>, k: int): (m: Mem)
    requires 0 < k < |nodes| && InMem(mem, nodes)
  {
    mem[nodes[k - 1] := Header(mem[nodes[k]].ptr, mem[nodes[k - 1]].size)]
  }

  /** The memory after malloc() cuts `units` off the end of the block at position `k`. */
  function Cut(mem: Mem, nodes: seq<int>, k: int, units: int): (m: Mem)
    requires 0 < k < |nodes| && InMem(mem, nodes)
  {
    var p := nodes[k];
    var a := p + mem[p].size - units;
    mem[p := Header(mem[p].ptr, mem[p].size - units)][a := Header(if a in mem then mem[a].ptr else 0, units)]
  }

  /** A cell apart from the free blocks stays so when one is taken or shortened. */
  lemma {:induction false} TakeExactHanded(mem: Mem, base: int, top: int, nodes: seq<int>, k: int, c: Cell)
    requires IsList(mem, base, nodes) && InMem(mem, nodes) && 0 < k < |nodes| && Handed(mem, base, top, nodes, c)
    ensures var nodes' := nodes[..k] + nodes[k + 1..];
            InMem(Unlinked(mem, nodes, k), nodes') && Handed(Unlinked(mem, nodes, k), base, top, nodes', c)
  {
    var mem', nodes' := Unlinked(mem, nodes, k), nodes[..k] + nodes[k + 1..];
    forall j | 0 <= j < |nodes'|
      ensures nodes'[j] in mem' && (j >= 1 ==> Apart(c, FreeCell(mem', nodes', j)))
    {
      var i := if j < k then j else j + 1;
      assert nodes'[j] == nodes[i] && (i >= 1 ==> Apart(c, FreeCell(mem, nodes, i)));
    }
  }

  lemma {:induction false} TakeExact(mem: Mem, base: int, top: int, nodes: seq<int>, live: seq<Cell>, k: int)
    requires IsHeap(mem, base, top, nodes, live) && 0 < k < |nodes|
    ensures var c := FreeCell(mem, nodes, k);
            var mem', nodes' := Unlinked(mem, nodes, k), nodes[..k] + nodes[k + 1..];
            && IsHeap(mem', base, top, nodes', live + [c]) && Units(mem', nodes') == Units(mem, nodes) - c.units
  {
    assert NodeOk(mem, nodes, k - 1) && NodeOk(mem, nodes, k);
    Remove(mem, base, nodes, k);
    var c := FreeCell(mem, nodes, k);
    var mem', nodes' := Unlinked(mem, nodes, k), nodes[..k] + nodes[k + 1..];
    TakenHanded(mem, base, top, nodes, k);
    TakeExactUnits(mem, base, nodes, k);
    hide IsList, Handed, Units, Unlinked;
    var live' := live + [c];
    forall i | 0 <= i < |live'|
      ensures Handed(mem', base, top, nodes', live'[i])
    {
      if i < |live| {
        TakeExactHanded(mem, base, top, nodes, k, live[i]);
      }
    }
    forall i, j | 0 <= i < j < |live'|
      ensures Apart(live'[i], live'[j])
    {
      if j == |live| {
        HandedApart(mem, base, top, nodes, k, live[i]);
      }
    }
  }

  lemma {:induction false} HandedApart(mem: Mem, base: int, top: int, nodes: seq<int>, k: int, c: Cell)
    requires InMem(mem, nodes) && 0 < k < |nodes| && Handed(mem, base, top, nodes, c)
    ensures Apart(c, FreeCell(mem, nodes, k))
  {
  }

  lemma {:induction false} TakenHanded(mem: Mem, base: int, top: int, nodes: seq<int>, k: int)
    requires IsList(mem, base, nodes) && InMem(mem, nodes) && 0 < k < |nodes| && Below(mem, nodes, top)
    ensures var c := FreeCell(mem, nodes, k);
            var mem', nodes' := Unlinked(mem, nodes, k), nodes[..k] + nodes[k + 1..];
            InMem(mem', nodes') && Handed(mem', base, top, nodes', c) && Below(mem', nodes', top)
  {
    var c := FreeCell(mem, nodes, k);
    var mem', nodes' := Unlinked(mem, nodes, k), nodes[..k] + nodes[k + 1..];
    assert NodeOk(mem, nodes, k);
    forall j | 0 <= j < |nodes'|
      ensures nodes'[j] in mem' && (j >= 1 ==> Apart(c, FreeCell(mem', nodes', j)) && nodes'[j] + mem'[nodes'[j]].size <= top)
    {
      var i := if j < k then j else j + 1;
      assert nodes'[j] == nodes[i];
      if 1 <= i < k {
        FreeApart(mem, base, nodes, i, k);
      } else if i > k {
        FreeApart(mem, base, nodes, k, i);
      }
    }
  }

  lemma {:induction false} TakeExactUnits(mem: Mem, base: int, nodes: seq<int>, k: int)
    requires IsList(mem, base, nodes) && InMem(mem, nodes) && 0 < k < |nodes|
    ensures Units(Unlinked(mem, nodes, k), nodes[..k] + nodes[k + 1..]) == Units(mem, nodes) - mem[nodes[k]].size
  {
    hide IsList;
    var mem', pre, post := Unlinked(mem, nodes, k), nodes[..k], nodes[k + 1..];
    assert forall j :: 0 <= j < |nodes| ==> nodes[j] in mem' && mem'[nodes[j]].size == mem[nodes[j]].size;
    hide Unlinked, Units;
    UnitsConcat(mem', pre, post);
    assert nodes == pre + ([nodes[k]] + post);
    UnitsMiddle(mem, pre, [nodes[k]], post);
    UnitsSame(mem, mem', pre);
    UnitsSame(mem, mem', post);
    assert [nodes[k]] + [] == [nodes[k]];
    UnitsTwo(mem, nodes[k], []);
  }

  lemma {:induction false} CutSizes(mem: Mem, base: int, nodes: seq<int>, k: int, units: int, j: int)
    requires IsList(mem, base, nodes) && InMem(mem, nodes) && 0 < k < |nodes| && 1 <= units < mem[nodes[k]].size && 0 <= j < |nodes|
    ensures nodes[j] in Cut(mem, nodes, k, units)
    ensures Cut(mem, nodes, k, units)[nodes[j]].size == mem[nodes[j]].size - if j == k then units else 0
  {
    var a := nodes[k] + mem[nodes[k]].size - units;
    assert NodeOk(mem, nodes, k);
    if j > k {
      FreeApart(mem, base, nodes, k, j);
    }
    assert nodes[j] != a;
  }

  lemma {:induction false} CutHanded(mem: Mem, base: int, top: int, nodes: seq<int>, k: int, units: int, c: Cell)
    requires IsList(mem, base, nodes) && InMem(mem, nodes) && 0 < k < |nodes| && 1 <= units < mem[nodes[k]].size
    requires Handed(mem, base, top, nodes, c)
    ensures var mem' := Cut(mem, nodes, k, units);
            InMem(mem', nodes) && Handed(mem', base, top, nodes, c) && Apart(c, Cell(nodes[k] + mem[nodes[k]].size - units, units))
  {
    var mem' := Cut(mem, nodes, k, units);
    assert Apart(c, FreeCell(mem, nodes, k));
    forall j | 0 <= j < |nodes|
      ensures nodes[j] in mem' && (j >= 1 ==> Apart(c, FreeCell(mem', nodes, j)))
    {
      CutSizes(mem, base, nodes, k, units, j);
      assert j >= 1 ==> Apart(c, FreeCell(mem, nodes, j));
    }
  }

  lemma {:induction false} CutTailHanded(mem: Mem, base: int, top: int, nodes: seq<int>, k: int, units: int)
    requires IsList(mem, base, nodes) && InMem(mem, nodes) && 0 < k < |nodes| && 1 <= units < mem[nodes[k]].size && Below(mem, nodes, top)
    ensures var mem', c := Cut(mem, nodes, k, units), Cell(nodes[k] + mem[nodes[k]].size - units, units);
            InMem(mem', nodes) && Handed(mem', base, top, nodes, c) && Below(mem', nodes, top)
  {
    var mem', c := Cut(mem, nodes, k, units), Cell(nodes[k] + mem[nodes[k]].size - units, units);
    assert NodeOk(mem, nodes, k);
    forall j | 0 <= j < |nodes|
      ensures nodes[j] in mem' && (j >= 1 ==> Apart(c, FreeCell(mem', nodes, j)) && nodes[j] + mem'[nodes[j]].size <= top)
    {
      CutSizes(mem, base, nodes, k, units, j);
      if 1 <= j < k {
        FreeApart(mem, base, nodes, j, k);
      } else if j > k {
        FreeApart(mem, base, nodes, k, j);
      }
    }
  }

  lemma {:induction false} UnitsLess(mem: Mem, mem': Mem, nodes: seq<int>, k: int, units: int)
    requires InMem(mem, nodes) && InMem(mem', nodes) && 0 <= k < |nodes|
    requires forall j :: 0 <= j < |nodes| ==> mem'[nodes[j]].size == mem[nodes[j]].size - if j == k then units else 0
    ensures Units(mem', nodes) == Units(mem, nodes) - units
    decreases |nodes|
  {
    var rest := nodes[..|nodes| - 1];
    if k == |nodes| - 1 {
      UnitsSame(mem, mem', rest);
    } else {
      UnitsLess(mem, mem', rest, k, units);
    }
  }

  lemma {:induction false} CutUnits(mem: Mem, base: int, nodes: seq<int>, k: int, units: int)
    requires IsList(mem, base, nodes) && InMem(mem, nodes) && 0 < k < |nodes| && 1 <= units < mem[nodes[k]].size
    ensures Units(Cut(mem, nodes, k, units), nodes) == Units(mem, nodes) - units
  {
    hide IsList, Cut, Units;
    var mem' := Cut(mem, nodes, k, units);
    forall j | 0 <= j < |nodes|
      ensures nodes[j] in mem' && mem'[nodes[j]].size == mem[nodes[j]].size - if j == k then units else 0
    {
      CutSizes(mem, base, nodes, k, units, j);
    }
    UnitsLess(mem, mem', nodes, k, units);
  }

  lemma {:induction false} TakeTail(mem: Mem, base: int, top: int, nodes: seq<int>, live: seq<Cell>, k: int, units: int)
    requires IsHeap(mem, base, top, nodes, live) && 0 < k < |nodes| && 1 <= units < mem[nodes[k]].size
    ensures var c := Cell(nodes[k] + mem[nodes[k]].size - units, units);
            var mem' := Cut(mem, nodes, k, units);
            IsHeap(mem', base, top, nodes, live + [c]) && Units(mem', nodes) == Units(mem, nodes) - units
  {
    var c := Cell(nodes[k] + mem[nodes[k]].size - units, units);
    var mem' := Cut(mem, nodes, k, units);
    assert NodeOk(mem, nodes, k);
    CutTail(mem, base, nodes, k, units, mem'[c.addr]);
    assert mem' == mem[nodes[k] := Header(mem[nodes[k]].ptr, mem[nodes[k]].size - units)][c.addr := mem'[c.addr]];
    CutTailHanded(mem, base, top, nodes, k, units);
    CutUnits(mem, base, nodes, k, units);
    hide IsList, Handed, Units, Cut;
    var live' := live + [c];
    forall i | 0 <= i < |live'|
      ensures Handed(mem', base, top, nodes, live'[i])
    {
      if i < |live| {
        CutHanded(mem, base, top, nodes, k, units, live[i]);
      }
    }
    forall i, j | 0 <= i < j < |live'|
      ensures Apart(live'[i], live'[j])
    {
      if j == |live| {
        CutHanded(mem, base, top, nodes, k, units, live[i]);
      }
    }
  }

  // ---------------------------------------------------------------- giving and getting memory

  /** Taking a block back from its user leaves it loose. */
  lemma {:induction false} LiveLoose(mem: Mem, base: int, top: int, nodes: seq<int>, live: seq<Cell>, i: nat)
    requires IsHeap(mem, base, top, nodes, live) && i < |live|
    ensures var live' := live[..i] + live[i + 1..];
            IsHeap(mem, base, top, nodes, live') && Loose(mem, base, top, nodes, live', live[i].addr)
            && mem[live[i].addr].size == live[i].units
  {
    hide IsList, Below;
    var live' := live[..i] + live[i + 1..];
    assert Handed(mem, base, top, nodes, live[i]);
    forall j | 0 <= j < |live'|
      ensures Handed(mem, base, top, nodes, live'[j]) && Apart(live'[j], live[i])
    {
      assert live'[j] == live[if j < i then j else j + 1];
    }
    forall j, k | 0 <= j < k < |live'|
      ensures Apart(live'[j], live'[k])
    {
      assert live'[j] == live[if j < i then j else j + 1];
      assert live'[k] == live[if k < i then k else k + 1];
    }
  }

  /** Memory granted beyond the heap is loose once it has a header. */
  lemma {:induction false} GrantLoose(mem: Mem, base: int, top: int, nodes: seq<int>, live: seq<Cell>, a: int, h: Header)
    requires IsHeap(mem, base, top, nodes, live) && a >= top && h.size >= 1
    ensures var mem' := mem[a := h];
            IsHeap(mem', base, a + h.size, nodes, live) && Loose(mem', base, a + h.size, nodes, live, a)
            && Units(mem', nodes) == Units(mem, nodes)
  {
    var mem' := mem[a := h];
    forall k | 0 <= k < |nodes|
      ensures nodes[k] != a && NodeOk(mem', nodes, k)
    {
      assert NodeOk(mem, nodes, k);
    }
    UnitsSame(mem, mem', nodes);
    forall i | 0 <= i < |live|
      ensures Handed(mem', base, a + h.size, nodes, live[i])
    {
      assert Handed(mem, base, top, nodes, live[i]);
      forall k | 1 <= k < |nodes|
        ensures Apart(live[i], FreeCell(mem', nodes, k))
      {
        assert Apart(live[i], FreeCell(mem, nodes, k));
      }
    }
  }

  /** Some free block has at least `units`. */
  ghost predicate HasRoom(mem: Mem, nodes: seq<int>, units: int)
    requires InMem(mem, nodes)
  {
    exists k :: 0 <= k < |nodes| && mem[nodes[k]].size >= units
  }

  /** A block just freed is, alone or joined, a free block at least as large. */
  lemma {:induction false} LinkInRoom(mem: Mem, base: int, nodes: seq<int>, k: int, b: int)
    requires IsList(mem, base, nodes) && Fits(mem, nodes, k, b)
    ensures var (mem', nodes') := LinkIn(mem, nodes, k, b);
            InMem(mem', nodes') ==> HasRoom(mem', nodes', mem[b].size)
  {
    FitsFacts(mem, base, nodes, k, b);
    var (mem', nodes') := LinkIn(mem, nodes, k, b);
    if Own(mem, nodes, k, b) == [b] {
      assert nodes'[k + 1] == b;
    } else {
      assert nodes'[k] == nodes[k];
      assert mem[nodes[k]].size >= 0;
    }
  }

  // ---------------------------------------------------------------- malloc's walk

  /** Steps from position `k` to position `f` around the list. */
  ghost function Dist(n: int, k: int, f: int): (d: nat)
    requires 0 <= k < n && 0 <= f < n
  {
    if k <= f then f - k else n - k + f
  }

  ghost function Prev(n: int, k: int): (j: int)
    requires 0 <= k < n
    ensures 0 <= j < n
  {
    if k == 0 then n - 1 else k - 1
  }

  ghost function Succ(n: int, k: int): (j: int)
    requires 0 <= k < n
    ensures 0 <= j < n
  {
    if k + 1 == n then 0 else k + 1
  }

  /** The blocks malloc has looked at on its way from position `f` to position `k` are too small. */
  ghost predicate Passed(mem: Mem, nodes: seq<int>, f: int, k: int, units: int)
    requires InMem(mem, nodes) && 0 <= f < |nodes| && 0 <= k < |nodes|
  {
    forall i :: 0 <= i < |nodes| && Dist(|nodes|, i, f) > Dist(|nodes|, k, f) ==> mem[nodes[i]].size < units
  }

  lemma {:induction false} PassedStep(mem: Mem, nodes: seq<int>, f: int, k: int, units: int)
    requires InMem(mem, nodes) && 0 <= k < |nodes| && 0 <= f < |nodes|
    requires Passed(mem, nodes, f, k, units) && mem[nodes[k]].size < units && k != f
    ensures Passed(mem, nodes, f, Succ(|nodes|, k), units)
    ensures Dist(|nodes|, Succ(|nodes|, k), f) == Dist(|nodes|, k, f) - 1
    ensures Prev(|nodes|, Succ(|nodes|, k)) == k && NextOf(nodes, k) == nodes[Succ(|nodes|, k)]
  {
    var n := |nodes|;
    forall i | 0 <= i < n && Dist(n, i, f) > Dist(n, Succ(n, k), f)
      ensures mem[nodes[i]].size < units
    {
      assert i == k || Dist(n, i, f) > Dist(n, k, f);
    }
  }

  lemma {:induction false} PassedAll(mem: Mem, nodes: seq<int>, f: int, units: int)
    requires InMem(mem, nodes) && 0 <= f < |nodes| && Passed(mem, nodes, f, f, units) && mem[nodes[f]].size < units
    ensures !HasRoom(mem, nodes, units)
  {
    var n := |nodes|;
    forall i | 0 <= i < n
      ensures mem[nodes[i]].size < units
    {
      assert i == f || Dist(n, i, f) > Dist(n, f, f);
    }
  }

  lemma {:induction false} PassedStart(mem: Mem, nodes: seq<int>, f: int, units: int)
    requires InMem(mem, nodes) && 0 <= f < |nodes|
    ensures Passed(mem, nodes, f, Succ(|nodes|, f), units)
    ensures Prev(|nodes|, Succ(|nodes|, f)) == f && NextOf(nodes, f) == nodes[Succ(|nodes|, f)]
  {
  }

  // ---------------------------------------------------------------- code

  class Allocator {
    const base: int          // &base
    var mem: Mem
    var freep: Option<int>   // None is the null pointer
    ghost var nodes: seq<int>
    ghost var live: seq<Cell>
    ghost var top: int       // end of the memory sbrk has granted
    ghost var granted: int   // units of it that became heap

    ghost predicate Valid()
      reads this
    {
      && (freep.None? ==> nodes == [] && live == [] && granted == 0 && base < top)
      && (freep.Some? ==>
            && freep.value in nodes
            && IsHeap(mem, base, top, nodes, live)
            && Units(mem, nodes) + LiveUnits(live) == granted)
    }

    /** The search in free(): the free block after which `bp` belongs. It always ends, wherever
        `freep` points. */
    method Search(bp: int) returns (p: int)
      requires freep.Some? && freep.value in nodes && IsList(mem, base, nodes) && base < bp && bp !in nodes
      ensures p == nodes[Place(nodes, bp)]
    {
      ghost var j := Place(nodes, bp);
      hide Place, IsList;
      ghost var k :| 0 <= k < |nodes| && nodes[k] == freep.value;
      p := freep.value;
      SearchStep(mem, base, nodes, k, bp);
      while !(bp > p && bp < mem[p].ptr)
        invariant 0 <= k < |nodes| && p == nodes[k] && p in mem
        invariant (bp > p && bp < mem[p].ptr) || (p >= mem[p].ptr && (bp > p || bp < mem[p].ptr)) <==> k == j
        invariant mem[p].ptr == NextOf(nodes, k)
        decreases if k <= j then j - k else |nodes| - k + j
      {
        if p >= mem[p].ptr && (bp > p || bp < mem[p].ptr) {
          break;
        }
        k := if k + 1 < |nodes| then k + 1 else 0;
        p := mem[p].ptr;
        SearchStep(mem, base, nodes, k, bp);
      }
    }

    /** The second half of free(): join block `bp` to its neighbours, or link it in. */
    method Join(bp: int, p: int, ghost j: int)
      requires 0 <= j < |nodes| && InMem(mem, nodes) && bp in mem && p == nodes[j] && p != bp
      requires mem[p].ptr == NextOf(nodes, j)
      modifies `mem, `freep
      ensures freep == Some(p) && mem == LinkIn(old(mem), nodes, j, bp).0
    {
      hide Before, Own, Beyond;
      NextIn(nodes, j);
      if bp + mem[bp].size == mem[p].ptr {
        mem := mem[bp := Header(mem[mem[p].ptr].ptr, mem[bp].size + mem[mem[p].ptr].size)];
      } else {
        mem := mem[bp := Header(mem[p].ptr, mem[bp].size)];
      }
      if p + mem[p].size == bp {
        mem := mem[p := Header(mem[bp].ptr, mem[p].size + mem[bp].size)];
      } else {
        mem := mem[p := Header(bp, mem[p].size)];
      }
      freep := Some(p);
    }

    lemma {:induction false} NextIn(nodes: seq<int>, j: int)
      requires 0 <= j < |nodes|
      ensures NextOf(nodes, j) in nodes
    {
    }

    /** The body of free(), for a block whose header gives its size. */
    method Link(bp: int)
      requires freep.Some? && freep.value in nodes
      requires IsHeap(mem, base, top, nodes, live) && Loose(mem, base, top, nodes, live, bp)
      modifies `mem, `freep, `nodes
      ensures freep.Some? && freep.value in nodes
      ensures IsHeap(mem, base, top, nodes, live)
      ensures Units(mem, nodes) == Units(old(mem), old(nodes)) + old(mem)[bp].size
      ensures old(nodes) != [] && old(nodes)[0] < bp && Fits(old(mem), old(nodes), Place(old(nodes), bp), bp)
      ensures (mem, nodes) == LinkIn(old(mem), old(nodes), Place(old(nodes), bp), bp)
    {
      LooseFits(mem, base, top, nodes, live, bp);
      LinkInHeap(mem, base, top, nodes, live, bp);
      HeapList(mem, base, top, nodes, live);
      ghost var j := Place(nodes, bp);
      FitsFacts(mem, base, nodes, j, bp);
      hide IsHeap, Place, Fits, IsList, NodeOk, Units, LinkIn;
      var p := Search(bp);
      Join(bp, p, j);
      LinkInKeeps(old(mem), nodes, j, bp);
      nodes := LinkIn(old(mem), nodes, j, bp).1;
    }

    lemma {:induction false} LinkInKeeps(mem: Mem, nodes: seq<int>, k: int, b: int)
      requires 0 <= k < |nodes| && InMem(mem, nodes) && b in mem
      ensures nodes[k] in LinkIn(mem, nodes, k, b).1
    {
      assert LinkIn(mem, nodes, k, b).1[k] == nodes[k];
    }

    lemma {:induction false} HeapList(mem: Mem, base: int, top: int, nodes: seq<int>, live: seq<Cell>)
      requires IsHeap(mem, base, top, nodes, live)
      ensures IsList(mem, base, nodes) && InMem(mem, nodes) && base < top
    {
    }

    /** free(): the block goes back to the free list. */
    method Free(ap: int, ghost i: nat)
      requires Valid() && i < |live| && live[i].addr == ap - 1
      modifies this
      ensures Valid() && freep.Some?
      ensures live == old(live)[..i] + old(live)[i + 1..] && granted == old(granted) && top == old(top)
    {
      LiveLoose(mem, base, top, nodes, live, i);
      LiveUnitsRemove(live, i);
      hide IsHeap, Units, LiveUnits, LinkIn;
      var bp := ap - 1;
      live := live[..i] + live[i + 1..];
      Link(bp);
    }

    /** morecore(): `grant` is what sbrk returns for a request of the units asked for, at least 4096. */
    method Morecore(nu: nat, grant: Option<int>) returns (r: Option<int>)
      requires Valid() && freep.Some? && (grant.Some? ==> grant.value >= top) && nu * HEADER < 0x8000_0000
      modifies this
      ensures Valid() && freep.Some? && live == old(live)
      ensures r.None? <==> grant.None?
      ensures r.None? ==> mem == old(mem) && freep == old(freep) && nodes == old(nodes) && granted == old(granted) && top == old(top)
      ensures r.Some? ==>
                && r == freep && InMem(mem, nodes) && HasRoom(mem, nodes, nu)
                && granted == old(granted) + if nu < 4096 then 4096 else nu
    {
      hide Units, LiveUnits, IsList, Handed, Below;
      var nu' := if nu < 4096 then 4096 else nu;
      if grant.None? {
        return None;
      }
      var hp := grant.value;
      GrantLoose(mem, base, top, nodes, live, hp, Header(0, nu'));
      mem := mem[hp := Header(0, nu')];
      top := hp + nu';
      granted := granted + nu';
      ghost var mem1, nodes1 := mem, nodes;
      Link(hp);
      LinkInRoom(mem1, base, nodes1, Place(nodes1, hp), hp);
      assert InMem(mem, nodes);
      return freep;
    }

    /** malloc() has found a large enough block: take it whole, or cut the request off its end. */
    method Take(prevp: int, p: int, nunits: nat, ghost k: int) returns (r: int)
      requires Valid() && freep.Some? && 0 < k < |nodes| && p == nodes[k] && prevp == nodes[k - 1] && nunits >= 1
      requires InMem(mem, nodes) && mem[p].size >= nunits
      modifies this
      ensures Valid() && freep.Some? && live == old(live) + [Cell(r - 1, nunits)]
      ensures granted == old(granted) && top == old(top)
      ensures r - 1 == p + old(mem)[p].size - nunits && freep == Some(prevp)
    {
      hide IsList, Handed, Below, LiveUnits, Units;
      ghost var c := Cell(p + mem[p].size - nunits, nunits);
      LiveUnitsAppend(live, c);
      if mem[p].size == nunits {
        TakeExact(mem, base, top, nodes, live, k);
        mem := mem[prevp := Header(mem[p].ptr, mem[prevp].size)];
        nodes := nodes[..k] + nodes[k + 1..];
        assert nodes[k - 1] == prevp;
        live := live + [Cell(p, nunits)];
        freep := Some(prevp);
        return p + 1;
      } else {
        TakeTail(mem, base, top, nodes, live, k, nunits);
        ghost var cut := Cut(mem, nodes, k, nunits);
        mem := mem[p := Header(mem[p].ptr, mem[p].size - nunits)];
        var q := p + mem[p].size;
        mem := mem[q := Header(if q in mem then mem[q].ptr else 0, nunits)];
        assert mem == cut;
        live := live + [Cell(q, nunits)];
        freep := Some(prevp);
        return q + 1;
      }
    }

    lemma {:induction false} LiveUnitsAppend(live: seq<Cell>, c: Cell)
      ensures LiveUnits(live + [c]) == LiveUnits(live) + c.units
    {
      assert (live + [c])[..|live|] == live;
    }

    /** The first call of malloc() makes a list of just the base. */
    method Start()
      requires Valid() && freep.None?
      modifies this
      ensures Valid() && freep == Some(base) && nodes == [base] && live == [] && top == old(top) && granted == old(granted)
      ensures mem == old(mem)[base := Header(base, 0)]
    {
      mem := mem[base := Header(base, 0)];
      freep := Some(base);
      nodes := [base];
      assert NodeOk(mem, nodes, 0);
      assert nodes[..0] == [];
      assert Units(mem, nodes) == 0;
    }

    /** malloc()'s walk: started after position `f`, now at position `k`, nothing large enough yet. */
    ghost predicate Walking(f: int, k: int, prevp: int, p: int, units: int)
      reads this
    {
      && freep.Some? && InMem(mem, nodes)
      && 0 <= f < |nodes| && nodes[f] == freep.value
      && 0 <= k < |nodes| && nodes[k] == p && nodes[Prev(|nodes|, k)] == prevp
      && Passed(mem, nodes, f, k, units)
    }

    lemma {:induction false} WalkStart(units: int) returns (f: int, k: int)
      requires freep.Some? && Valid()
      ensures freep.value in mem && Walking(f, k, freep.value, mem[freep.value].ptr, units)
    {
      f :| 0 <= f < |nodes| && nodes[f] == freep.value;
      assert NodeOk(mem, nodes, f);
      k := Succ(|nodes|, f);
      PassedStart(mem, nodes, f, units);
    }

    lemma {:induction false} WalkStep(f: int, k: int, prevp: int, p: int, units: int) returns (k': int)
      requires Valid() && Walking(f, k, prevp, p, units) && p in mem && mem[p].size < units && p != freep.value
      ensures Walking(f, k', p, mem[p].ptr, units) && WalkLeft(f, k') < WalkLeft(f, k)
    {
      assert NodeOk(mem, nodes, k);
      PassedStep(mem, nodes, f, k, units);
      k' := Succ(|nodes|, k);
    }

    ghost function WalkLeft(f: int, k: int): (d: nat)
      reads this
    {
      if 0 <= f < |nodes| && 0 <= k < |nodes| then Dist(|nodes|, k, f) else 0
    }

    lemma {:induction false} WalkEnd(f: int, k: int, prevp: int, p: int, units: int)
      requires Valid() && Walking(f, k, prevp, p, units) && p in mem && mem[p].size < units && p == freep.value
      ensures InMem(mem, nodes) && !HasRoom(mem, nodes, units)
    {
      assert Ascending(nodes);
      assert f == k;
      PassedAll(mem, nodes, f, units);
    }

    lemma {:induction false} WalkFound(f: int, k: int, prevp: int, p: int, units: int)
      requires Valid() && Walking(f, k, prevp, p, units) && p in mem && mem[p].size >= units >= 1
      ensures 0 < k < |nodes| && p == nodes[k] && prevp == nodes[k - 1] && InMem(mem, nodes)
    {
    }

    lemma {:induction false} WalkAt(f: int, k: int, prevp: int, p: int, units: int)
      requires Walking(f, k, prevp, p, units)
      ensures p in mem
    {
    }

    /** Of the blocks with room, the one at position `k` is the first after `freep` in the order of the list. */
    ghost predicate NextFit(mem: Mem, nodes: seq<int>, freep: Option<int>, f: int, k: int, units: int) {
      && freep.Some? && InMem(mem, nodes) && 0 <= f < |nodes| && nodes[f] == freep.value
      && 0 < k < |nodes| && mem[nodes[k]].size >= units && Passed(mem, nodes, f, k, units)
    }

    lemma {:induction false} WalkFits(f: int, k: int, prevp: int, p: int, units: int)
      requires Valid() && Walking(f, k, prevp, p, units) && p in mem && mem[p].size >= units >= 1
      ensures NextFit(mem, nodes, freep, f, k, units)
    {
    }

    /** malloc(): a block of the units the request rounds to, or None when no free block is large
        enough and sbrk, asked at most once, refuses. `grant` is sbrk's answer. */
    method Malloc(nbytes: nat, grant: Option<int>) returns (r: Option<int>, grown: bool, ghost at: int)
      requires Valid() && nbytes < UINT && Nunits(nbytes) * HEADER < 0x8000_0000 && (grant.Some? ==> grant.value >= top)
      modifies this
      ensures Valid() && freep.Some?
      ensures r.Some? ==> live == old(live) + [Cell(r.value - 1, Nunits(nbytes))]
      ensures r.Some? && !grown ==>
                && (exists f :: NextFit(old(mem), old(nodes), old(freep), f, at, Nunits(nbytes)))
                && r.value - 1 + Nunits(nbytes) == old(nodes)[at] + old(mem)[old(nodes)[at]].size && freep == Some(old(nodes)[at - 1])
      ensures r.None? ==> live == old(live) && grant.None? && InMem(mem, nodes) && !HasRoom(mem, nodes, Nunits(nbytes))
      ensures r.None? ==>
                if old(freep).Some? then mem == old(mem) && nodes == old(nodes) && freep == old(freep) && top == old(top)
                else mem == old(mem)[base := Header(base, 0)] && nodes == [base] && freep == Some(base) && top == old(top)
      ensures old(freep).Some? ==> InMem(old(mem), old(nodes))
      ensures r.None? <==> grant.None? && (old(freep).Some? ==> !HasRoom(old(mem), old(nodes), Nunits(nbytes)))
      ensures grown ==> grant.Some? && (old(freep).Some? ==> InMem(old(mem), old(nodes)) && !HasRoom(old(mem), old(nodes), Nunits(nbytes)))
      ensures granted == old(granted) + if !grown then 0 else if Nunits(nbytes) < 4096 then 4096 else Nunits(nbytes)
    {
      hide IsHeap, LiveUnits, Units, HasRoom, Nunits, Walking, WalkLeft, NextFit;
      var nunits := Nunits(nbytes);
      grown, at := false, 0;
      if freep.None? {
        Start();
      }
      ghost var mem1, nodes1, freep1 := mem, nodes, freep;
      HeapMem();
      if old(freep).None? {
        BaseHasNoRoom(mem, base, nbytes);
      }
      var prevp := freep.value;
      ghost var f, k := WalkStart(nunits);
      var p := mem[prevp].ptr;
      while true
        invariant Valid() && freep.Some? && live == old(live) && Walking(f, k, prevp, p, nunits)
        invariant !grown ==> mem == mem1 && nodes == nodes1 && freep == freep1 && top == old(top) && granted == old(granted)
        invariant grown ==> InMem(mem, nodes) && HasRoom(mem, nodes, nunits) && grant.Some? && !HasRoom(mem1, nodes1, nunits)
        invariant grown ==> granted == old(granted) + if nunits < 4096 then 4096 else nunits
        decreases if grown then 0 else 1, WalkLeft(f, k)
      {
        WalkAt(f, k, prevp, p, nunits);
        if mem[p].size >= nunits {
          WalkFound(f, k, prevp, p, nunits);
          RoomAt(mem, nodes, k, nunits);
          WalkFits(f, k, prevp, p, nunits);
          at := k;
          var a := Take(prevp, p, nunits, k);
          return Some(a), grown, at;
        }
        if p == freep.value {
          WalkEnd(f, k, prevp, p, nunits);
          var q := Morecore(nunits, grant);
          if q.None? {
            return None, grown, at;
          }
          p := q.value;
          grown := true;
          f, k := WalkStart(nunits);
        } else {
          k := WalkStep(f, k, prevp, p, nunits);
        }
        prevp := p;
        p := mem[p].ptr;
      }
    }

    lemma {:induction false} RoomAt(mem: Mem, nodes: seq<int>, k: int, units: int)
      requires InMem(mem, nodes) && 0 <= k < |nodes| && mem[nodes[k]].size >= units
      ensures HasRoom(mem, nodes, units)
    {
    }

    lemma {:induction false} BaseHasNoRoom(mem: Mem, base: int, nbytes: nat)
      requires base in mem && mem[base].size == 0
      ensures InMem(mem, [base]) && !HasRoom(mem, [base], Nunits(nbytes))
    {
    }

    lemma {:induction false} HeapMem()
      requires Valid() && freep.Some?
      ensures InMem(mem, nodes) && freep.value in mem
    {
    }
  }
}
