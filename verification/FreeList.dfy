/** The circular, address-ordered free list of umalloc.c, on values. Addresses count in header units. */
module FreeList {

  /** union header */
  datatype Header = Header(ptr: int, size: int)

  type Mem = map<int, Header>

  /** A stretch of heap, its header included. */
  datatype Cell = Cell(addr: int, units: int)

  predicate Apart(a: Cell, b: Cell) {
    a.addr + a.units <= b.addr || b.addr + b.units <= a.addr
  }

  /** Where the list goes after position `k`. */
  function NextOf(nodes: seq<int>, k: int): (a: int)
    requires 0 <= k < |nodes|
  {
    if k + 1 < |nodes| then nodes[k + 1] else nodes[0]
  }

  ghost predicate Ascending(nodes: seq<int>) {
    forall j, k :: 0 <= j < k < |nodes| ==> nodes[j] < nodes[k]
  }

  /** The header at position `k`: linked to the next block, and ending short of it. */
  ghost predicate NodeOk(mem: Mem, nodes: seq<int>, k: int) {
    && 0 <= k < |nodes| && nodes[k] in mem && mem[nodes[k]].ptr == NextOf(nodes, k)
    && (k >= 1 ==> mem[nodes[k]].size >= 1)
    && (1 <= k < |nodes| - 1 ==> nodes[k] + mem[nodes[k]].size < nodes[k + 1])
  }

  /** `nodes` are the free blocks by increasing address, after `base`, which has size 0: one cycle
      through `ptr`, no two blocks touching. */
  ghost predicate IsList(mem: Mem, base: int, nodes: seq<int>) {
    && |nodes| > 0 && nodes[0] == base && Ascending(nodes)
    && (forall k :: 0 <= k < |nodes| ==> NodeOk(mem, nodes, k))
    && base in mem && mem[base].size == 0
  }

  /** The free block at position `k` of the list. */
  function FreeCell(mem: Mem, nodes: seq<int>, k: int): (c: Cell)
    requires 0 <= k < |nodes| && nodes[k] in mem
  {
    Cell(nodes[k], mem[nodes[k]].size)
  }

  ghost predicate InMem(mem: Mem, nodes: seq<int>) {
    forall k :: 0 <= k < |nodes| ==> nodes[k] in mem
  }

  /** Cell `c` overlaps no free block. */
  ghost predicate Clear(mem: Mem, nodes: seq<int>, c: Cell)
    requires InMem(mem, nodes)
  {
    forall k :: 1 <= k < |nodes| ==> Apart(c, FreeCell(mem, nodes, k))
  }

  /** Total size of a list of blocks. */
  function Units(mem: Mem, nodes: seq<int>): (n: int) {
    if nodes == [] then 0
    else Units(mem, nodes[..|nodes| - 1]) + (if nodes[|nodes| - 1] in mem then mem[nodes[|nodes| - 1]].size else 0)
  }

  lemma {:induction false} UnitsConcat(mem: Mem, a: seq<int>, b: seq<int>)
    ensures Units(mem, a + b) == Units(mem, a) + Units(mem, b)
  {
    if b == [] {
      assert a + b == a;
    } else {
      assert (a + b)[..|a + b| - 1] == a + b[..|b| - 1];
      UnitsConcat(mem, a, b[..|b| - 1]);
    }
  }

  /** Headers off the list do not count. */
  lemma {:induction false} UnitsSame(mem: Mem, mem': Mem, nodes: seq<int>)
    requires InMem(mem, nodes) && InMem(mem', nodes)
    requires forall k :: 0 <= k < |nodes| ==> mem'[nodes[k]].size == mem[nodes[k]].size
    ensures Units(mem', nodes) == Units(mem, nodes)
  {
    if nodes != [] {
      UnitsSame(mem, mem', nodes[..|nodes| - 1]);
    }
  }

  // ---------------------------------------------------------------- linking in a block

  /** Where block `b` belongs in the list: after position `k`. */
  ghost predicate Between(nodes: seq<int>, k: int, b: int) {
    0 <= k < |nodes| && nodes[k] < b && (k + 1 < |nodes| ==> b < nodes[k + 1])
  }

  lemma {:induction false} AscendingInsert(nodes: seq<int>, k: int, b: int)
    requires Ascending(nodes) && Between(nodes, k, b)
    ensures Ascending(nodes[..k + 1] + [b] + nodes[k + 1..])
    ensures k + 1 < |nodes| ==> Ascending(nodes[k + 1 := b])
  {
    assert forall j :: 0 <= j <= k ==> nodes[j] < b;
    assert forall j :: k < j < |nodes| ==> b < nodes[j];
  }

  /** A position of the list that an update of other headers leaves alone. */
  lemma {:induction false} NodeKept(mem: Mem, mem': Mem, nodes: seq<int>, j: int, r: seq<int>, i: int)
    requires NodeOk(mem, nodes, j) && 0 <= i < |r| && r[i] == nodes[j] && (i >= 1 ==> j >= 1)
    requires nodes[j] in mem' && mem'[nodes[j]] == mem[nodes[j]]
    requires NextOf(r, i) == NextOf(nodes, j)
    requires i < |r| - 1 ==> j < |nodes| - 1
    ensures NodeOk(mem', r, i)
  {
  }

  /** Linking `b` in after position `k` when it touches neither neighbour. */
  lemma {:induction false} Insert(mem: Mem, base: int, nodes: seq<int>, k: int, b: int, units: int)
    requires IsList(mem, base, nodes) && Between(nodes, k, b) && units >= 1
    requires NodeOk(mem, nodes, k) && (k > 0 ==> nodes[k] + mem[nodes[k]].size < b)
    requires k + 1 < |nodes| ==> b + units < nodes[k + 1]
    ensures var p := nodes[k];
            IsList(mem[b := Header(mem[p].ptr, units)][p := Header(b, mem[p].size)], base, nodes[..k + 1] + [b] + nodes[k + 1..])
  {
    var p := nodes[k];
    var mem' := mem[b := Header(mem[p].ptr, units)][p := Header(b, mem[p].size)];
    hide NodeOk;
    var r := nodes[..k + 1] + [b] + nodes[k + 1..];
    AscendingInsert(nodes, k, b);
    forall j | 0 <= j < |r|
      ensures NodeOk(mem', r, j)
    {
      InsertAt(mem, nodes, k, b, units, j);
    }
  }

  lemma {:induction false} InsertAt(mem: Mem, nodes: seq<int>, k: int, b: int, units: int, j: int)
    requires Ascending(nodes) && Between(nodes, k, b) && units >= 1 && 0 <= j <= |nodes|
    requires NodeOk(mem, nodes, k) && (k > 0 ==> nodes[k] + mem[nodes[k]].size < b)
    requires k + 1 < |nodes| ==> b + units < nodes[k + 1]
    requires NodeOk(mem, nodes, if j <= k then j else if j == k + 1 then k else j - 1)
    ensures var p := nodes[k];
            NodeOk(mem[b := Header(mem[p].ptr, units)][p := Header(b, mem[p].size)], nodes[..k + 1] + [b] + nodes[k + 1..], j)
  {
    var p := nodes[k];
    var mem' := mem[b := Header(mem[p].ptr, units)][p := Header(b, mem[p].size)];
    var r := nodes[..k + 1] + [b] + nodes[k + 1..];
    if j < k {
      NodeKept(mem, mem', nodes, j, r, j);
    } else if j > k + 1 {
      NodeKept(mem, mem', nodes, j - 1, r, j);
    }
  }

  /** Linking `b` in before a block it touches: the two become one, in that block's place. */
  lemma {:induction false} JoinUpper(mem: Mem, base: int, nodes: seq<int>, k: int, b: int, units: int)
    requires IsList(mem, base, nodes) && Between(nodes, k, b) && units >= 1
    requires NodeOk(mem, nodes, k) && (k > 0 ==> nodes[k] + mem[nodes[k]].size < b)
    requires k + 1 < |nodes| && b + units == nodes[k + 1] && NodeOk(mem, nodes, k + 1)
    ensures var p, q := nodes[k], nodes[k + 1];
            IsList(mem[b := Header(mem[q].ptr, units + mem[q].size)][p := Header(b, mem[p].size)], base, nodes[k + 1 := b])
  {
    var p, q := nodes[k], nodes[k + 1];
    var mem' := mem[b := Header(mem[q].ptr, units + mem[q].size)][p := Header(b, mem[p].size)];
    hide NodeOk;
    AscendingInsert(nodes, k, b);
    var r := nodes[k + 1 := b];
    forall j | 0 <= j < |r|
      ensures NodeOk(mem', r, j)
    {
      JoinUpperAt(mem, nodes, k, b, units, j);
    }
  }

  lemma {:induction false} JoinUpperAt(mem: Mem, nodes: seq<int>, k: int, b: int, units: int, j: int)
    requires Ascending(nodes) && Between(nodes, k, b) && units >= 1 && NodeOk(mem, nodes, j)
    requires NodeOk(mem, nodes, k) && (k > 0 ==> nodes[k] + mem[nodes[k]].size < b)
    requires k + 1 < |nodes| && b + units == nodes[k + 1] && NodeOk(mem, nodes, k + 1)
    ensures var p, q := nodes[k], nodes[k + 1];
            NodeOk(mem[b := Header(mem[q].ptr, units + mem[q].size)][p := Header(b, mem[p].size)], nodes[k + 1 := b], j)
  {
    var p, q := nodes[k], nodes[k + 1];
    var mem' := mem[b := Header(mem[q].ptr, units + mem[q].size)][p := Header(b, mem[p].size)];
    if j != k && j != k + 1 {
      assert nodes[j] != p && nodes[j] != b;
      NodeKept(mem, mem', nodes, j, nodes[k + 1 := b], j);
    }
  }

  /** Appending `b` to a block it follows. */
  lemma {:induction false} JoinLower(mem: Mem, base: int, nodes: seq<int>, k: int, b: int, units: int)
    requires IsList(mem, base, nodes) && Between(nodes, k, b) && units >= 1
    requires NodeOk(mem, nodes, k) && k > 0 && nodes[k] + mem[nodes[k]].size == b
    requires k + 1 < |nodes| ==> b + units < nodes[k + 1]
    ensures var p := nodes[k];
            IsList(mem[b := Header(mem[p].ptr, units)][p := Header(mem[p].ptr, mem[p].size + units)], base, nodes)
  {
    var p := nodes[k];
    var mem' := mem[b := Header(mem[p].ptr, units)][p := Header(mem[p].ptr, mem[p].size + units)];
    assert base != b && base != p;
    forall j | 0 <= j < |nodes|
      ensures NodeOk(mem', nodes, j)
    {
      assert NodeOk(mem, nodes, j);
      if j != k {
        assert nodes[j] != p && nodes[j] != b;
        NodeKept(mem, mem', nodes, j, nodes, j);
      }
    }
  }

  /** Filling the gap between two blocks exactly: three become one. */
  lemma {:induction false} JoinBoth(mem: Mem, base: int, nodes: seq<int>, k: int, b: int, units: int)
    requires IsList(mem, base, nodes) && Between(nodes, k, b) && units >= 1
    requires NodeOk(mem, nodes, k) && k > 0 && nodes[k] + mem[nodes[k]].size == b
    requires k + 1 < |nodes| && b + units == nodes[k + 1] && NodeOk(mem, nodes, k + 1)
    ensures var p, q := nodes[k], nodes[k + 1];
            IsList(mem[b := Header(mem[q].ptr, units + mem[q].size)][p := Header(mem[q].ptr, mem[p].size + (units + mem[q].size))],
                   base, nodes[..k + 1] + nodes[k + 2..])
  {
    var p, q := nodes[k], nodes[k + 1];
    var mem' := mem[b := Header(mem[q].ptr, units + mem[q].size)][p := Header(mem[q].ptr, mem[p].size + (units + mem[q].size))];
    var r := nodes[..k + 1] + nodes[k + 2..];
    hide NodeOk;
    forall j | 0 <= j < |r|
      ensures NodeOk(mem', r, j)
    {
      JoinBothAt(mem, nodes, k, b, units, j);
    }
  }

  lemma {:induction false} JoinBothAt(mem: Mem, nodes: seq<int>, k: int, b: int, units: int, j: int)
    requires Ascending(nodes) && Between(nodes, k, b) && units >= 1 && 0 <= j < |nodes| - 1
    requires NodeOk(mem, nodes, if j <= k then j else j + 1)
    requires NodeOk(mem, nodes, k) && k > 0 && nodes[k] + mem[nodes[k]].size == b
    requires k + 1 < |nodes| && b + units == nodes[k + 1] && NodeOk(mem, nodes, k + 1)
    ensures var p, q := nodes[k], nodes[k + 1];
            NodeOk(mem[b := Header(mem[q].ptr, units + mem[q].size)][p := Header(mem[q].ptr, mem[p].size + (units + mem[q].size))],
                   nodes[..k + 1] + nodes[k + 2..], j)
  {
    var p, q := nodes[k], nodes[k + 1];
    var mem' := mem[b := Header(mem[q].ptr, units + mem[q].size)][p := Header(mem[q].ptr, mem[p].size + (units + mem[q].size))];
    var r := nodes[..k + 1] + nodes[k + 2..];
    if j < k {
      assert nodes[j] != p && nodes[j] != b;
      NodeKept(mem, mem', nodes, j, r, j);
    } else if j > k {
      assert nodes[j + 1] != p && nodes[j + 1] != b;
      NodeKept(mem, mem', nodes, j + 1, r, j);
    }
  }

  // ---------------------------------------------------------------- taking a block

  /** Unlinking the block at position `k`. */
  lemma {:induction false} Remove(mem: Mem, base: int, nodes: seq<int>, k: int)
    requires IsList(mem, base, nodes) && 0 < k < |nodes| && NodeOk(mem, nodes, k - 1) && NodeOk(mem, nodes, k)
    ensures var p := nodes[k - 1];
            IsList(mem[p := Header(mem[nodes[k]].ptr, mem[p].size)], base, nodes[..k] + nodes[k + 1..])
  {
    var p := nodes[k - 1];
    var mem' := mem[p := Header(mem[nodes[k]].ptr, mem[p].size)];
    var r := nodes[..k] + nodes[k + 1..];
    hide NodeOk;
    forall j | 0 <= j < |r|
      ensures NodeOk(mem', r, j)
    {
      RemoveAt(mem, nodes, k, j);
    }
  }

  lemma {:induction false} RemoveAt(mem: Mem, nodes: seq<int>, k: int, j: int)
    requires Ascending(nodes) && 0 < k < |nodes| && NodeOk(mem, nodes, k - 1) && NodeOk(mem, nodes, k) && 0 <= j < |nodes| - 1
    requires NodeOk(mem, nodes, if j < k then j else j + 1)
    ensures var p := nodes[k - 1];
            NodeOk(mem[p := Header(mem[nodes[k]].ptr, mem[p].size)], nodes[..k] + nodes[k + 1..], j)
  {
    var p := nodes[k - 1];
    var mem' := mem[p := Header(mem[nodes[k]].ptr, mem[p].size)];
    var r := nodes[..k] + nodes[k + 1..];
    if j < k - 1 {
      NodeKept(mem, mem', nodes, j, r, j);
    } else if j >= k {
      NodeKept(mem, mem', nodes, j + 1, r, j);
    }
  }

  /** Cutting `units` off the end of the block at position `k`, with a new header `h` there. */
  lemma {:induction false} CutTail(mem: Mem, base: int, nodes: seq<int>, k: int, units: int, h: Header)
    requires IsList(mem, base, nodes) && 0 < k < |nodes| && NodeOk(mem, nodes, k) && 1 <= units < mem[nodes[k]].size
    ensures var p := nodes[k];
            var left := mem[p].size - units;
            IsList(mem[p := Header(mem[p].ptr, left)][p + left := h], base, nodes)
  {
    var p := nodes[k];
    var left := mem[p].size - units;
    var mem' := mem[p := Header(mem[p].ptr, left)][p + left := h];
    assert base != p && base != p + left;
    forall j | 0 <= j < |nodes|
      ensures NodeOk(mem', nodes, j)
    {
      CutTailAt(mem, nodes, k, units, h, j);
    }
  }

  lemma {:induction false} CutTailAt(mem: Mem, nodes: seq<int>, k: int, units: int, h: Header, j: int)
    requires Ascending(nodes) && 0 < k < |nodes| && NodeOk(mem, nodes, k) && 1 <= units < mem[nodes[k]].size
    requires NodeOk(mem, nodes, j)
    ensures var p := nodes[k];
            var left := mem[p].size - units;
            NodeOk(mem[p := Header(mem[p].ptr, left)][p + left := h], nodes, j)
  {
    var p := nodes[k];
    var left := mem[p].size - units;
    var mem' := mem[p := Header(mem[p].ptr, left)][p + left := h];
    if j != k {
      assert j > k ==> nodes[k + 1] <= nodes[j];
      assert nodes[j] != p && nodes[j] != p + left;
      NodeKept(mem, mem', nodes, j, nodes, j);
    }
  }

  // ---------------------------------------------------------------- free

  function Before(nodes: seq<int>, k: int): (r: seq<int>)
    requires 0 <= k < |nodes|
  {
    nodes[..k]
  }

  /** The upper neighbour, if block `b` joins it. */
  function Upper(mem: Mem, nodes: seq<int>, k: int, b: int): (r: seq<int>)
    requires 0 <= k < |nodes| && b in mem
  {
    if b + mem[b].size == NextOf(nodes, k) then [NextOf(nodes, k)] else []
  }

  /** Block `b` itself, unless it joins its lower neighbour. */
  function Own(mem: Mem, nodes: seq<int>, k: int, b: int): (r: seq<int>)
    requires 0 <= k < |nodes| && nodes[k] in mem
  {
    if nodes[k] + mem[nodes[k]].size == b then [] else [b]
  }

  function Beyond(mem: Mem, nodes: seq<int>, k: int, b: int): (r: seq<int>)
    requires 0 <= k < |nodes| && b in mem
  {
    if b + mem[b].size == NextOf(nodes, k) && k + 2 <= |nodes| then nodes[k + 2..] else nodes[k + 1..]
  }

  /** The list after free() has found position `k` for block `b`. */
  function LinkIn(mem: Mem, nodes: seq<int>, k: int, b: int): (r: (Mem, seq<int>))
    requires 0 <= k < |nodes| && InMem(mem, nodes) && b in mem
  {
    var p, q := nodes[k], NextOf(nodes, k);
    var up := b + mem[b].size == q;
    var m1 := mem[b := if up then Header(mem[q].ptr, mem[b].size + mem[q].size) else Header(q, mem[b].size)];
    var down := p + m1[p].size == b;
    var m2 := m1[p := if down then Header(m1[b].ptr, m1[p].size + m1[b].size) else Header(b, m1[p].size)];
    (m2, Before(nodes, k) + ([p] + Own(mem, nodes, k, b) + Beyond(mem, nodes, k, b)))
  }

  /** The block found by free() is one the list may take: between two neighbours it does not overlap. */
  ghost predicate Fits(mem: Mem, nodes: seq<int>, k: int, b: int) {
    && Between(nodes, k, b) && InMem(mem, nodes) && b in mem && mem[b].size >= 1
    && (k > 0 ==> nodes[k] + mem[nodes[k]].size <= b)
    && (k + 1 < |nodes| ==> b + mem[b].size <= nodes[k + 1])
  }

  /** What linking in a block needs to know about its surroundings. */
  lemma {:induction false} FitsFacts(mem: Mem, base: int, nodes: seq<int>, k: int, b: int)
    requires IsList(mem, base, nodes) && Fits(mem, nodes, k, b)
    ensures NodeOk(mem, nodes, k) && mem[nodes[k]].ptr == NextOf(nodes, k) && b > base && nodes[k] != b
    ensures k == 0 ==> mem[nodes[k]].size == 0
    ensures b + mem[b].size == NextOf(nodes, k) ==> k + 1 < |nodes| && NodeOk(mem, nodes, k + 1)
    ensures nodes[k] + mem[nodes[k]].size == b ==> k > 0
  {
  }

  lemma {:induction false} LinkInList(mem: Mem, base: int, nodes: seq<int>, k: int, b: int)
    requires IsList(mem, base, nodes) && Fits(mem, nodes, k, b)
    ensures var (mem', nodes') := LinkIn(mem, nodes, k, b);
            IsList(mem', base, nodes')
  {
    hide IsList, LinkIn;
    if b + mem[b].size == NextOf(nodes, k) {
      LinkInListUpper(mem, base, nodes, k, b);
    } else {
      LinkInListApart(mem, base, nodes, k, b);
    }
  }

  lemma {:induction false} LinkInListUpper(mem: Mem, base: int, nodes: seq<int>, k: int, b: int)
    requires IsList(mem, base, nodes) && Fits(mem, nodes, k, b) && b + mem[b].size == NextOf(nodes, k)
    ensures var (mem', nodes') := LinkIn(mem, nodes, k, b);
            IsList(mem', base, nodes')
  {
    FitsFacts(mem, base, nodes, k, b);
    LinkInUpper(mem, nodes, k, b);
    hide IsList, NodeOk, LinkIn;
    if nodes[k] + mem[nodes[k]].size == b {
      JoinBoth(mem, base, nodes, k, b, mem[b].size);
    } else {
      JoinUpper(mem, base, nodes, k, b, mem[b].size);
    }
  }

  lemma {:induction false} LinkInListApart(mem: Mem, base: int, nodes: seq<int>, k: int, b: int)
    requires IsList(mem, base, nodes) && Fits(mem, nodes, k, b) && b + mem[b].size != NextOf(nodes, k)
    ensures var (mem', nodes') := LinkIn(mem, nodes, k, b);
            IsList(mem', base, nodes')
  {
    FitsFacts(mem, base, nodes, k, b);
    LinkInApart(mem, nodes, k, b);
    hide IsList, NodeOk, LinkIn;
    if nodes[k] + mem[nodes[k]].size == b {
      JoinLower(mem, base, nodes, k, b, mem[b].size);
    } else {
      Insert(mem, base, nodes, k, b, mem[b].size);
    }
  }

  lemma {:induction false} LinkInUpper(mem: Mem, nodes: seq<int>, k: int, b: int)
    requires 0 <= k < |nodes| && InMem(mem, nodes) && b in mem && nodes[k] != b
    requires b + mem[b].size == NextOf(nodes, k) && k + 1 < |nodes|
    ensures var p, q := nodes[k], nodes[k + 1];
            LinkIn(mem, nodes, k, b)
            == if p + mem[p].size == b
               then (mem[b := Header(mem[q].ptr, mem[b].size + mem[q].size)]
                        [p := Header(mem[q].ptr, mem[p].size + (mem[b].size + mem[q].size))],
                     nodes[..k + 1] + nodes[k + 2..])
               else (mem[b := Header(mem[q].ptr, mem[b].size + mem[q].size)][p := Header(b, mem[p].size)],
                     nodes[k + 1 := b])
  {
    var pre := nodes[..k];
    assert nodes[k + 1 := b] == pre + ([nodes[k]] + [b] + nodes[k + 2..]);
    assert nodes[..k + 1] + nodes[k + 2..] == pre + ([nodes[k]] + [] + nodes[k + 2..]);
  }

  lemma {:induction false} LinkInApart(mem: Mem, nodes: seq<int>, k: int, b: int)
    requires 0 <= k < |nodes| && InMem(mem, nodes) && b in mem && nodes[k] != b
    requires b + mem[b].size != NextOf(nodes, k) && mem[nodes[k]].ptr == NextOf(nodes, k)
    ensures var p := nodes[k];
            LinkIn(mem, nodes, k, b)
            == if p + mem[p].size == b
               then (mem[b := Header(mem[p].ptr, mem[b].size)][p := Header(mem[p].ptr, mem[p].size + mem[b].size)], nodes)
               else (mem[b := Header(mem[p].ptr, mem[b].size)][p := Header(b, mem[p].size)],
                     nodes[..k + 1] + [b] + nodes[k + 1..])
  {
    var pre, post := nodes[..k], nodes[k + 1..];
    assert nodes == pre + ([nodes[k]] + [] + post);
    assert nodes[..k + 1] + [b] + nodes[k + 1..] == pre + ([nodes[k]] + [b] + post);
  }

  lemma {:induction false} SplitNodes(mem: Mem, nodes: seq<int>, k: int, b: int)
    requires 0 <= k < |nodes| && b in mem && (b + mem[b].size == NextOf(nodes, k) ==> k + 1 < |nodes|)
    ensures nodes == Before(nodes, k) + ([nodes[k]] + Upper(mem, nodes, k, b) + Beyond(mem, nodes, k, b))
  {
    if b + mem[b].size == NextOf(nodes, k) {
      assert nodes == nodes[..k] + ([nodes[k]] + [nodes[k + 1]] + nodes[k + 2..]);
    } else {
      assert nodes == nodes[..k] + ([nodes[k]] + [] + nodes[k + 1..]);
    }
  }

  lemma {:induction false} LinkInHeaders(mem: Mem, base: int, nodes: seq<int>, k: int, b: int)
    requires IsList(mem, base, nodes) && Fits(mem, nodes, k, b)
    ensures var mem' := LinkIn(mem, nodes, k, b).0;
            var p, q := nodes[k], NextOf(nodes, k);
            && mem'.Keys == mem.Keys && q in mem
            && (forall a :: a in mem && a != p && a != b ==> mem'[a] == mem[a])
            && mem'[p].size + (if Own(mem, nodes, k, b) == [] then 0 else mem'[b].size)
               == mem[p].size + mem[b].size + (if Upper(mem, nodes, k, b) == [] then 0 else mem[q].size)
            && (Own(mem, nodes, k, b) == [b] ==>
                  mem'[p].size == mem[p].size)
  {
    FitsFacts(mem, base, nodes, k, b);
    hide IsList, NodeOk;
  }

  lemma {:induction false} UnitsBefore(mem: Mem, base: int, nodes: seq<int>, k: int, b: int)
    requires IsList(mem, base, nodes) && Fits(mem, nodes, k, b)
    ensures NextOf(nodes, k) in mem
    ensures Units(mem, nodes) == Units(mem, Before(nodes, k)) + Units(mem, Beyond(mem, nodes, k, b)) + mem[nodes[k]].size
                                 + if Upper(mem, nodes, k, b) == [] then 0 else mem[NextOf(nodes, k)].size
  {
    FitsFacts(mem, base, nodes, k, b);
    SplitNodes(mem, nodes, k, b);
    UnitsTwo(mem, nodes[k], Upper(mem, nodes, k, b));
    UnitsMiddle(mem, Before(nodes, k), [nodes[k]] + Upper(mem, nodes, k, b), Beyond(mem, nodes, k, b));
  }

  lemma {:induction false} UnitsAfter(mem: Mem, base: int, nodes: seq<int>, k: int, b: int)
    requires IsList(mem, base, nodes) && Fits(mem, nodes, k, b)
    ensures var (mem', nodes') := LinkIn(mem, nodes, k, b);
            nodes[k] in mem' && b in mem' &&
            Units(mem', nodes') == Units(mem', Before(nodes, k)) + Units(mem', Beyond(mem, nodes, k, b)) + mem'[nodes[k]].size
                                   + if Own(mem, nodes, k, b) == [] then 0 else mem'[b].size
  {
    LinkInHeaders(mem, base, nodes, k, b);
    var (mem', nodes') := LinkIn(mem, nodes, k, b);
    UnitsTwo(mem', nodes[k], Own(mem, nodes, k, b));
    UnitsMiddle(mem', Before(nodes, k), [nodes[k]] + Own(mem, nodes, k, b), Beyond(mem, nodes, k, b));
  }

  /** Freeing a block adds exactly its size to the free memory. */
  lemma {:induction false} LinkInUnits(mem: Mem, base: int, nodes: seq<int>, k: int, b: int)
    requires IsList(mem, base, nodes) && Fits(mem, nodes, k, b)
    ensures var (mem', nodes') := LinkIn(mem, nodes, k, b);
            Units(mem', nodes') == Units(mem, nodes) + mem[b].size
  {
    hide IsList, LinkIn, Units, Before, Beyond, Upper, Own;
    UnitsOutside(mem, base, nodes, k, b);
    LinkInHeaders(mem, base, nodes, k, b);
    UnitsBefore(mem, base, nodes, k, b);
    UnitsAfter(mem, base, nodes, k, b);
  }

  /** Away from the block being freed, linking it in changes no size. */
  lemma {:induction false} UnitsOutside(mem: Mem, base: int, nodes: seq<int>, k: int, b: int)
    requires IsList(mem, base, nodes) && Fits(mem, nodes, k, b)
    ensures var mem' := LinkIn(mem, nodes, k, b).0;
            && Units(mem', Before(nodes, k)) == Units(mem, Before(nodes, k))
            && Units(mem', Beyond(mem, nodes, k, b)) == Units(mem, Beyond(mem, nodes, k, b))
  {
    LinkInHeaders(mem, base, nodes, k, b);
    Elsewhere(nodes, k, b);
    hide IsList, NodeOk, LinkIn, Own, Upper;
    var mem' := LinkIn(mem, nodes, k, b).0;
    UnitsSame(mem, mem', Before(nodes, k));
    UnitsSame(mem, mem', Beyond(mem, nodes, k, b));
  }

  lemma {:induction false} Elsewhere(nodes: seq<int>, k: int, b: int)
    requires Ascending(nodes) && Between(nodes, k, b)
    ensures forall j :: 0 <= j < |nodes| && j != k ==> nodes[j] != nodes[k] && nodes[j] != b
  {
  }

  lemma {:induction false} UnitsMiddle(mem: Mem, a: seq<int>, b: seq<int>, c: seq<int>)
    ensures Units(mem, a + (b + c)) == Units(mem, a) + Units(mem, b) + Units(mem, c)
  {
    UnitsConcat(mem, a, b + c);
    UnitsConcat(mem, b, c);
  }

  lemma {:induction false} UnitsTwo(mem: Mem, p: int, q: seq<int>)
    requires p in mem && |q| <= 1 && (q != [] ==> q[0] in mem)
    ensures Units(mem, [p] + q) == mem[p].size + if q == [] then 0 else mem[q[0]].size
  {
    UnitsConcat(mem, [p], q);
    assert [p][..0] == [];
    if q != [] {
      assert q[..0] == [];
    }
  }

  lemma {:induction false} ApartJoin(c: Cell, a: Cell, b: Cell)
    requires c.units >= 1 && Apart(c, a) && Apart(c, b) && a.units >= 0 && b.units >= 0 && a.addr + a.units == b.addr
    ensures Apart(c, Cell(a.addr, a.units + b.units))
  {
  }

  /** Position `j` of the list after linking in a block at position `k`. */
  lemma {:induction false} LinkInPosition(mem: Mem, base: int, nodes: seq<int>, k: int, b: int, j: int) returns (i: int)
    requires IsList(mem, base, nodes) && Fits(mem, nodes, k, b) && 0 <= j < |LinkIn(mem, nodes, k, b).1|
    ensures var a := LinkIn(mem, nodes, k, b).1[j];
            if j == k || (j == k + 1 && Own(mem, nodes, k, b) == [b])
            then a == if j == k then nodes[k] else b
            else 0 <= i < |nodes| && i != k && a == nodes[i] && (j >= 1 ==> i >= 1)
  {
    FitsFacts(mem, base, nodes, k, b);
    var own, up := |Own(mem, nodes, k, b)|, |Upper(mem, nodes, k, b)|;
    hide IsList, NodeOk;
    var r := LinkIn(mem, nodes, k, b).1;
    assert r == Before(nodes, k) + ([nodes[k]] + Own(mem, nodes, k, b) + Beyond(mem, nodes, k, b));
    i := if j < k then j else j - own + up;
    if j < k {
      assert r[j] == Before(nodes, k)[j];
    } else if j > k + own {
      assert r[j] == Beyond(mem, nodes, k, b)[j - k - 1 - own];
    }
  }

  /** A cell apart from every free block and from the block being freed is apart from what they become. */
  lemma {:induction false} LinkInClear(mem: Mem, base: int, nodes: seq<int>, k: int, b: int, c: Cell)
    requires IsList(mem, base, nodes) && Fits(mem, nodes, k, b) && Clear(mem, nodes, c) && Apart(c, Cell(b, mem[b].size)) && c.units >= 1
    ensures var (mem', nodes') := LinkIn(mem, nodes, k, b);
            InMem(mem', nodes') && Clear(mem', nodes', c)
  {
    LinkInHeaders(mem, base, nodes, k, b);
    Elsewhere(nodes, k, b);
    LinkInClearAt(mem, base, nodes, k, b, c);
    hide IsList, LinkIn, Upper;
    var (mem', nodes') := LinkIn(mem, nodes, k, b);
    forall j | 0 <= j < |nodes'|
      ensures nodes'[j] in mem' && (j >= 1 ==> Apart(c, Cell(nodes'[j], mem'[nodes'[j]].size)))
    {
      var i := LinkInPosition(mem, base, nodes, k, b, j);
      assert 1 <= i < |nodes| ==> Apart(c, FreeCell(mem, nodes, i));
    }
  }

  lemma {:induction false} LinkInClearAt(mem: Mem, base: int, nodes: seq<int>, k: int, b: int, c: Cell)
    requires IsList(mem, base, nodes) && Fits(mem, nodes, k, b) && Clear(mem, nodes, c) && Apart(c, Cell(b, mem[b].size)) && c.units >= 1
    ensures var mem' := LinkIn(mem, nodes, k, b).0;
            var p := nodes[k];
            && p in mem' && b in mem'
            && (k >= 1 ==> Apart(c, Cell(p, mem'[p].size)))
            && (Own(mem, nodes, k, b) == [b] ==> Apart(c, Cell(b, mem'[b].size)))
  {
    FitsFacts(mem, base, nodes, k, b);
    var p, q := nodes[k], NextOf(nodes, k);
    var units := mem[b].size;
    if k >= 1 {
      assert Apart(c, FreeCell(mem, nodes, k));
    }
    if b + units == q {
      assert Apart(c, FreeCell(mem, nodes, k + 1));
      ApartJoin(c, Cell(b, units), Cell(q, mem[q].size));
    }
    if p + mem[p].size == b {
      var rest := if b + units == q then units + mem[q].size else units;
      ApartJoin(c, Cell(p, mem[p].size), Cell(b, rest));
    }
  }
}
