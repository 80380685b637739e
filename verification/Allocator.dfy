/** The libc allocator in memory: header words, `freep` and the two circular searches,
    proved against the theory of free runs. */
module Allocator {
  import opened Basics
  import opened Runs

  const NULL: int := 0
  const HEADER: int := 16

  // ----- sizes

  /** nunits as malloc computes it, in 64-bit unsigned arithmetic. */
  function UnitsFor(nbytes: int): int {
    (nbytes + HEADER - 1) % TWO64 / HEADER + 1
  }

  /** Bytes behind the header of a block of `units` units. */
  function Capacity(units: int): int {
    (units - 1) * HEADER
  }

  /** A block of UnitsFor(nbytes) units holds nbytes bytes, for every size_t but the last fifteen, and
      is then the smallest that does.  For those fifteen it is a lone header. */
  lemma CapacityIff(nbytes: int)
    requires 0 <= nbytes < TWO64
    ensures Capacity(UnitsFor(nbytes)) >= nbytes <==> nbytes <= TWO64 - HEADER
    ensures nbytes <= TWO64 - HEADER ==> Capacity(UnitsFor(nbytes) - 1) < nbytes
    ensures nbytes > TWO64 - HEADER ==> UnitsFor(nbytes) == 1
  {
    if nbytes <= TWO64 - HEADER {
      assert (nbytes + HEADER - 1) % TWO64 == nbytes + HEADER - 1;
    } else {
      assert (nbytes + HEADER - 1) % TWO64 == nbytes + HEADER - 1 - TWO64;
    }
  }

  /** Units morecore asks for. */
  function CoreUnits(nu: int): (n: int)
    ensures n >= nu && n >= 4096 && (n == nu || n == 4096)
  {
    if nu < 4096 then 4096 else nu
  }

  /** The byte count the kernel acts on: a 64-bit product cut down to a signed 32-bit int. */
  function SbrkArgument(nu: int): (r: int)
    ensures -TWO31 <= r < TWO31
  {
    var low := nu * HEADER % TWO64 % TWO32;
    if low < TWO31 then low else low - TWO32
  }

  /** It differs from the byte count meant by a multiple of 2^32. */
  lemma SbrkArgumentCut(nu: int)
    ensures exists k: int :: nu * HEADER == SbrkArgument(nu) + Times32(k)
  {
    var n := nu * HEADER;
    var high, low := n / TWO64, n % TWO64;
    var k := high * TWO32 + low / TWO32;
    assert n == TWO64 * high + low && low == TWO32 * (low / TWO32) + low % TWO32;
    assert n == SbrkArgument(nu) + Times32(k) || n == SbrkArgument(nu) + Times32(k + 1);
  }

  function Times32(k: int): int {
    k * TWO32
  }

  /** The kernel sees the byte count that morecore meant exactly when it is below 2^31. */
  lemma SbrkArgumentIff(nu: int)
    requires 1 <= nu <= TWO64 / HEADER
    ensures SbrkArgument(nu) == nu * HEADER <==> nu * HEADER < TWO31
  {
  }

  /** What morecore takes for its new block is inside what the kernel granted exactly for those sizes. */
  lemma SbrkGrantsIff(p: int, nu: int)
    requires 1 <= nu <= TWO64 / HEADER
    ensures Block(p, nu) <= Block(p, SbrkArgument(nu) / HEADER) <==> nu * HEADER < TWO31
  {
    SbrkArgumentIff(nu);
    if nu * HEADER >= TWO31 {
      assert p + nu - 1 in Block(p, nu);
      assert SbrkArgument(nu) / HEADER < nu;
    }
  }

  // ----- live blocks

  /** The units of all live blocks; `live` maps a header address to its size in units. */
  function LiveUnits(live: map<int, int>): set<int> {
    set a, u | a in live && u in Block(a, live[a]) :: u
  }

  ghost predicate LiveDisjoint(live: map<int, int>) {
    && (forall a :: a in live ==> live[a] >= 1)
    && (forall a, b :: a in live && b in live && a != b ==> Block(a, live[a]) !! Block(b, live[b]))
  }

  lemma LiveAdd(live: map<int, int>, a: int, n: int)
    requires LiveDisjoint(live) && n >= 1 && Block(a, n) !! LiveUnits(live)
    ensures a !in live
    ensures LiveDisjoint(live[a := n])
    ensures LiveUnits(live[a := n]) == LiveUnits(live) + Block(a, n)
  {
    assert a in Block(a, n);
    assert a in live ==> a in Block(a, live[a]);
    var live' := live[a := n];
    forall u | u in LiveUnits(live) ensures u in LiveUnits(live') {
      var b :| b in live && u in Block(b, live[b]);
      assert b in live' && live'[b] == live[b];
    }
    forall u | u in Block(a, n) ensures u in LiveUnits(live') {
      assert a in live' && live'[a] == n;
    }
    forall b | b in live ensures Block(a, n) !! Block(b, live[b]) {
      assert Block(b, live[b]) <= LiveUnits(live);
    }
  }

  lemma HeadersInLiveUnits(live: map<int, int>)
    requires LiveDisjoint(live)
    ensures forall a :: a in live ==> a in LiveUnits(live)
  {
    forall a | a in live ensures a in LiveUnits(live) {
      assert a in Block(a, live[a]);
    }
  }

  lemma LiveRemove(live: map<int, int>, a: int)
    requires LiveDisjoint(live) && a in live
    ensures LiveDisjoint(live - {a})
    ensures LiveUnits(live - {a}) == LiveUnits(live) - Block(a, live[a])
    ensures Block(a, live[a]) <= LiveUnits(live)
  {
    var live' := live - {a};
    forall u | u in LiveUnits(live) && u !in Block(a, live[a]) ensures u in LiveUnits(live') {
      var b :| b in live && u in Block(b, live[b]);
      assert b in live' && live'[b] == live[b];
    }
  }

  // ----- the heap

  ghost predicate LinkAt(runs: seq<Run>, i: nat, ptr: map<int, int>, size: map<int, int>)
    requires i < |runs|
  {
    && runs[i].addr in ptr && ptr[runs[i].addr] == runs[Next(|runs|, i)].addr
    && runs[i].addr in size && size[runs[i].addr] == runs[i].len
  }

  /** The links and sizes in memory spell out `runs` as a circular list. */
  ghost predicate LinkedAs(runs: seq<Run>, ptr: map<int, int>, size: map<int, int>) {
    forall i :: 0 <= i < |runs| ==> LinkAt(runs, i, ptr, size)
  }

  /** The stores of free that make the new block point past, or absorb, its right neighbour. */
  function StoreRight(bp: int, q: int, ptr: map<int, int>, size: map<int, int>): (map<int, int>, map<int, int>)
    requires bp in size && q in ptr && q in size
  {
    if bp + size[bp] == q
    then (ptr[bp := ptr[q]], size[bp := size[bp] + size[q]])
    else (ptr[bp := q], size)
  }

  /** The stores of free that make the left neighbour point to, or absorb, the new block. */
  function StoreLeft(p: int, bp: int, ptr: map<int, int>, size: map<int, int>): (map<int, int>, map<int, int>)
    requires p in size && bp in ptr && bp in size
  {
    if p + size[p] == bp
    then (ptr[p := ptr[bp]], size[p := size[p] + size[bp]])
    else (ptr[p := bp], size)
  }

  ghost predicate Ordered(runs: seq<Run>) {
    forall i, j :: 0 <= i < j < |runs| ==> runs[i].addr < runs[j].addr
  }

  function InsertAt(runs: seq<Run>, g: nat, b: Run): seq<Run>
    requires g < |runs|
  {
    runs[..g + 1] + [b] + runs[g + 1..]
  }

  /** Run `i` swallows run `i + 1`. */
  function AbsorbAt(runs: seq<Run>, i: nat): seq<Run>
    requires i + 1 < |runs|
  {
    runs[..i] + [Run(runs[i].addr, runs[i].len + runs[i + 1].len)] + runs[i + 2..]
  }

  lemma LinkInsert(runs: seq<Run>, g: nat, b: Run, ptr: map<int, int>, size: map<int, int>)
    requires Ordered(runs) && LinkedAs(runs, ptr, size) && g < |runs|
    requires b.addr in size && size[b.addr] == b.len
    requires runs[g].addr < b.addr && (g + 1 < |runs| ==> b.addr < runs[g + 1].addr)
    ensures Ordered(InsertAt(runs, g, b))
    ensures LinkedAs(InsertAt(runs, g, b), ptr[b.addr := runs[Next(|runs|, g)].addr][runs[g].addr := b.addr], size)
  {
    var out := InsertAt(runs, g, b);
    var ptr' := ptr[b.addr := runs[Next(|runs|, g)].addr][runs[g].addr := b.addr];
    assert LinkAt(runs, g, ptr, size);
    forall j | 0 <= j < |out| ensures LinkAt(out, j, ptr', size) {
      if j < g {
        assert LinkAt(runs, j, ptr, size);
        assert runs[j].addr < runs[g].addr;
      } else if j > g + 1 {
        assert LinkAt(runs, j - 1, ptr, size);
        assert out[j] == runs[j - 1] && runs[g].addr < runs[j - 1].addr;
        assert j - 1 > g + 1 ==> runs[g + 1].addr < runs[j - 1].addr;
      }
    }
    OrderedInsert(runs, g, b);
  }

  lemma OrderedInsert(runs: seq<Run>, g: nat, b: Run)
    requires Ordered(runs) && g < |runs|
    requires runs[g].addr < b.addr && (g + 1 < |runs| ==> b.addr < runs[g + 1].addr)
    ensures Ordered(InsertAt(runs, g, b))
  {
    var out := InsertAt(runs, g, b);
    forall i, j | 0 <= i < j < |out| ensures out[i].addr < out[j].addr {
      assert i < g ==> runs[i].addr < runs[g].addr;
      assert j > g + 2 ==> runs[g + 1].addr < runs[j - 1].addr;
    }
  }

  lemma LinkAbsorb(runs: seq<Run>, i: nat, ptr: map<int, int>, size: map<int, int>)
    requires Ordered(runs) && LinkedAs(runs, ptr, size) && i + 1 < |runs|
    requires LinkAt(runs, i, ptr, size) && LinkAt(runs, i + 1, ptr, size)
    ensures var x, y := runs[i].addr, runs[i + 1].addr;
            LinkedAs(AbsorbAt(runs, i), ptr[x := ptr[y]], size[x := size[x] + size[y]])
    ensures Ordered(AbsorbAt(runs, i))
  {
    var out := AbsorbAt(runs, i);
    var x, y := runs[i].addr, runs[i + 1].addr;
    var ptr', size' := ptr[x := ptr[y]], size[x := size[x] + size[y]];
    forall j | 0 <= j < |out| ensures LinkAt(out, j, ptr', size') {
      if j < i {
        assert LinkAt(runs, j, ptr, size);
        assert runs[j].addr < x;
      } else if j > i {
        assert LinkAt(runs, j + 1, ptr, size);
        assert x < runs[j + 1].addr;
      }
    }
  }

  /** The list after `b` has been put in and the touching neighbours absorbed, one step at a time. */
  lemma AbsorbJoined(before: seq<Run>, x: Run, m: Run, rest: seq<Run>)
    requires x.End() == m.addr
    ensures AbsorbAt(before + ([x, m] + rest), |before|) == before + (JoinLeft(x, m) + rest)
  {
    var all := before + ([x, m] + rest);
    assert all[..|before|] == before && all[|before|] == x && all[|before| + 1] == m;
    assert all[|before| + 2..] == rest;
  }

  /** Inserting, and absorbing the right neighbour if it is touched. */
  lemma InsertedRight(runs: seq<Run>, g: nat, b: Run)
    requires g < |runs|
    ensures AfterRight(runs, g, b) == runs[..g] + ([runs[g], JoinRight(runs, g, b).0] + JoinRight(runs, g, b).1)
  {
    var ins := InsertAt(runs, g, b);
    assert ins[..g + 1] == runs[..g + 1] == runs[..g] + [runs[g]] && ins[g + 1] == b && ins[g + 2..] == runs[g + 1..];
    if g + 1 < |runs| && b.End() == runs[g + 1].addr {
      assert ins[g + 2] == runs[g + 1] && ins[g + 3..] == runs[g + 2..];
    }
  }

  lemma CoalesceBySteps(runs: seq<Run>, g: nat, b: Run)
    requires g < |runs|
    ensures var right := AfterRight(runs, g, b);
            && |right| > g + 1 && right[g] == runs[g] && right[g + 1].addr == b.addr
            && CoalesceAt(runs, g, b) == if runs[g].End() == b.addr then AbsorbAt(right, g) else right
  {
    hide AfterRight, AbsorbAt;
    var (m, rest) := JoinRight(runs, g, b);
    InsertedRight(runs, g, b);
    if runs[g].End() == b.addr {
      AbsorbJoined(runs[..g], runs[g], m, rest);
    }
  }

  function AfterRight(runs: seq<Run>, g: nat, b: Run): (r: seq<Run>)
    requires g < |runs|
    ensures |r| > g + 1
  {
    if g + 1 < |runs| && b.End() == runs[g + 1].addr then AbsorbAt(InsertAt(runs, g, b), g + 1)
        else InsertAt(runs, g, b)
  }

  lemma StoreRightLinks(runs: seq<Run>, g: nat, b: Run, ptr: map<int, int>, size: map<int, int>)
    requires Ordered(runs) && LinkedAs(runs, ptr, size) && g < |runs| && b.len >= 1
    requires b.addr in size && size[b.addr] == b.len
    requires runs[g].addr < b.addr && (g + 1 < |runs| ==> b.addr < runs[g + 1].addr)
    requires LinkAt(runs, Next(|runs|, g), ptr, size)
    ensures var p, q := runs[g].addr, runs[Next(|runs|, g)].addr;
            var (ptr1, size1) := StoreRight(b.addr, q, ptr, size);
            && LinkedAs(AfterRight(runs, g, b), ptr1[p := b.addr], size1) && Ordered(AfterRight(runs, g, b))
            && b.addr in ptr1 && b.addr in size1
  {
    var p, q := runs[g].addr, runs[Next(|runs|, g)].addr;
    var ins := InsertAt(runs, g, b);
    LinkInsert(runs, g, b, ptr, size);
    var ptrI := ptr[b.addr := q][p := b.addr];
    if g + 1 < |runs| && b.End() == runs[g + 1].addr {
      assert LinkAt(ins, g + 1, ptrI, size) && LinkAt(ins, g + 2, ptrI, size);
      LinkAbsorb(ins, g + 1, ptrI, size);
      assert ptrI[b.addr := ptrI[q]] == ptr[b.addr := ptr[q]][p := b.addr];
    } else {
      assert runs[0].addr < b.addr by { assert g > 0 ==> runs[0].addr < runs[g].addr; }
    }
  }

  lemma StoreLeftLinks(right: seq<Run>, g: nat, ptr1: map<int, int>, size1: map<int, int>)
    requires g + 1 < |right|
    requires Ordered(right) && LinkedAs(right, ptr1[right[g].addr := right[g + 1].addr], size1)
    requires right[g + 1].addr in ptr1
    requires right[g].addr in size1 && right[g + 1].addr in size1
    ensures var (ptr2, size2) := StoreLeft(right[g].addr, right[g + 1].addr, ptr1, size1);
            LinkedAs(if right[g].End() == right[g + 1].addr then AbsorbAt(right, g) else right, ptr2, size2)
  {
    var p, bp := right[g].addr, right[g + 1].addr;
    var ptrL := ptr1[p := bp];
    assert LinkAt(right, g, ptrL, size1) && LinkAt(right, g + 1, ptrL, size1);
    if right[g].End() == bp {
      LinkAbsorb(right, g, ptrL, size1);
      assert ptrL[p := ptrL[bp]] == ptr1[p := ptr1[bp]];
    }
  }

  /** The stores of free turn memory that spells out `runs` into memory that spells out
      the coalesced list. */
  lemma FreeStores(runs: seq<Run>, g: nat, b: Run, ptr: map<int, int>, size: map<int, int>)
    requires Ordered(runs) && LinkedAs(runs, ptr, size) && g < |runs| && b.len >= 1
    requires b.addr in size && size[b.addr] == b.len
    requires runs[g].addr < b.addr && (g + 1 < |runs| ==> b.addr < runs[g + 1].addr)
    requires LinkAt(runs, g, ptr, size) && LinkAt(runs, Next(|runs|, g), ptr, size)
    ensures var p := runs[g].addr;
            var (ptr1, size1) := StoreRight(b.addr, ptr[p], ptr, size);
            var (ptr2, size2) := StoreLeft(p, b.addr, ptr1, size1);
            LinkedAs(CoalesceAt(runs, g, b), ptr2, size2)
  {
    CoalesceBySteps(runs, g, b);
    StoreRightLinks(runs, g, b, ptr, size);
    var (ptr1, size1) := StoreRight(b.addr, ptr[runs[g].addr], ptr, size);
    StoreLeftLinks(AfterRight(runs, g, b), g, ptr1, size1);
  }

  lemma NotANode(runs: seq<Run>, b: Run)
    requires FreeList(runs) && runs[0].addr < b.addr && b.len >= 1
    requires Block(b.addr, b.len) !! Units(runs)
    ensures forall j :: 0 <= j < |runs| ==> runs[j].addr != b.addr
  {
    NonNegative(runs);
    assert b.addr in Block(b.addr, b.len);
    forall j | 1 <= j < |runs| ensures runs[j].addr != b.addr {
      InUnits(runs, j);
      assert runs[j].addr in Block(runs[j].addr, runs[j].len);
    }
  }

  /** The node that ends up as freep is still on the list. */
  lemma CoalesceKeepsPlace(runs: seq<Run>, g: nat, b: Run)
    requires g < |runs|
    ensures g < |CoalesceAt(runs, g, b)| && CoalesceAt(runs, g, b)[g].addr == runs[g].addr
  {
  }

  lemma Increasing(runs: seq<Run>)
    requires FreeList(runs)
    ensures Ordered(runs)
  {
    NonNegative(runs);
    forall i, j | 0 <= i < j < |runs| ensures runs[i].addr < runs[j].addr {
      assert runs[i].End() < runs[j].addr;
    }
  }

  /** The exit test of the search loop in free, at a node `p` whose successor is `q`. */
  predicate Stops(p: int, q: int, bp: int) {
    (bp > p && bp < q) || (p >= q && (bp > p || bp < q))
  }

  lemma StopsExactlyAtGap(runs: seq<Run>, bp: int, i: nat)
    requires FreeList(runs) && runs[0].addr < bp && i < |runs|
    requires forall j :: 0 <= j < |runs| ==> runs[j].addr != bp
    ensures Stops(runs[i].addr, runs[Next(|runs|, i)].addr, bp) <==> i == Gap(runs, bp)
  {
    var g := Gap(runs, bp);
    GapIsBetween(runs, bp);
    NonNegative(runs);
    assert i < g ==> runs[i].addr <= runs[i].End() < runs[g].addr;
    assert i + 1 < g ==> runs[i + 1].addr <= runs[i + 1].End() < runs[g].addr;
    assert 0 < i ==> runs[0].addr < runs[i].addr;
    assert i + 1 < |runs| ==> runs[i].addr <= runs[i].End() < runs[i + 1].addr;
  }

  /** Everything the allocator keeps, as a value. */
  datatype HeapState = HeapState(
    base: int,                // unit address of the static header `base`
    freep: int,
    ptr: map<int, int>,       // s.ptr of the header at each unit address
    size: map<int, int>,      // s.size of the header at each unit address
    brk: int,                 // everything sbrk handed out lies below
    runs: seq<Run>,           // the circular list, in address order from `base`
    live: map<int, int>,      // blocks handed out by malloc, by header address
    core: set<int>)           // units obtained from sbrk

  ghost predicate Linked(h: HeapState) {
    && LinkedAs(h.runs, h.ptr, h.size)
    && exists k :: 0 <= k < |h.runs| && h.runs[k].addr == h.freep
  }

  /** Free and live units partition the units obtained from sbrk. */
  ghost predicate Accounted(h: HeapState) {
    && LiveDisjoint(h.live)
    && (forall a :: a in h.live ==> a in h.size && h.size[a] == h.live[a])
    && Units(h.runs) !! LiveUnits(h.live)
    && Units(h.runs) + LiveUnits(h.live) == h.core
    && (forall u :: u in h.core ==> h.base < u < h.brk)
  }

  ghost predicate ValidState(h: HeapState) {
    && 0 < h.base < h.brk
    && FreeList(h.runs) && h.runs[0] == Run(h.base, 0)
    && (if h.freep == NULL then h.runs == [Run(h.base, 0)] && h.live == map[] else Linked(h))
    && Accounted(h)
  }

  lemma Conservation(h: HeapState)
    requires ValidState(h)
    ensures |Units(h.runs)| + |LiveUnits(h.live)| == |h.core|
  {
  }

  lemma NodeNotLive(h: HeapState, g: nat)
    requires ValidState(h) && g < |h.runs|
    ensures h.runs[g].addr !in h.live
  {
    NonNegative(h.runs);
    InUnits(h.runs, g);
    assert g > 0 ==> h.runs[g].addr in Block(h.runs[g].addr, h.runs[g].len);
    HeadersInLiveUnits(h.live);
  }

  /** A live block has a place on the free list. */
  lemma FreePlace(h: HeapState, bp: int)
    requires ValidState(h) && bp in h.live
    ensures h.base < bp && h.freep != NULL && |h.runs| >= 1
    ensures Fits(h.runs, Run(bp, h.live[bp]))
    ensures forall j :: 0 <= j < |h.runs| ==> h.runs[j].addr != bp
    ensures bp in h.size && h.size[bp] == h.live[bp]
    ensures var g := Gap(h.runs, bp);
            && LinkAt(h.runs, g, h.ptr, h.size) && LinkAt(h.runs, Next(|h.runs|, g), h.ptr, h.size)
  {
    LiveRemove(h.live, bp);
    assert bp in Block(bp, h.live[bp]);
    NotANode(h.runs, Run(bp, h.live[bp]));
  }

  lemma FreeAccounts(h: HeapState, bp: int)
    requires ValidState(h) && bp in h.live && Fits(h.runs, Run(bp, h.live[bp]))
    ensures var after := Coalesce(h.runs, Run(bp, h.live[bp]));
            && FreeList(after) && after[0] == h.runs[0]
            && Units(after) !! LiveUnits(h.live - {bp})
            && Units(after) + LiveUnits(h.live - {bp}) == h.core
    ensures LiveDisjoint(h.live - {bp})
  {
    var b := Run(bp, h.live[bp]);
    LiveRemove(h.live, bp);
    CoalesceUnits(h.runs, b);
    CoalesceFreeList(h.runs, b);
  }

  /** The state after free has stored `ptr2` and `size2`. */
  function Freed(h: HeapState, bp: int, ptr2: map<int, int>, size2: map<int, int>): HeapState
    requires |h.runs| >= 1 && bp in h.live
  {
    h.(freep := h.runs[Gap(h.runs, bp)].addr, ptr := ptr2, size := size2,
       runs := Coalesce(h.runs, Run(bp, h.live[bp])), live := h.live - {bp})
  }

  /** The other live blocks keep their sizes: free writes into the freed block and into a free node. */
  lemma FreedSizes(h: HeapState, bp: int, g: nat)
    requires ValidState(h) && bp in h.live && bp in h.size && g < |h.runs|
    requires LinkAt(h.runs, g, h.ptr, h.size) && h.ptr[h.runs[g].addr] in h.ptr && h.ptr[h.runs[g].addr] in h.size
    ensures var p := h.runs[g].addr;
            var (ptr1, size1) := StoreRight(bp, h.ptr[p], h.ptr, h.size);
            var size2 := StoreLeft(p, bp, ptr1, size1).1;
            forall a :: a in h.live - {bp} ==> a in size2 && size2[a] == h.live[a]
  {
    hide Units, LiveUnits, LiveDisjoint, FreeList, Linked;
    NodeNotLive(h, g);
  }

  lemma FreedLinks(h: HeapState, bp: int)
    requires ValidState(h) && bp in h.live && bp in h.size && h.freep != NULL
    requires var g := Gap(h.runs, bp);
             LinkAt(h.runs, g, h.ptr, h.size) && LinkAt(h.runs, Next(|h.runs|, g), h.ptr, h.size)
    ensures var g := Gap(h.runs, bp);
            var (ptr1, size1) := StoreRight(bp, h.ptr[h.runs[g].addr], h.ptr, h.size);
            var (ptr2, size2) := StoreLeft(h.runs[g].addr, bp, ptr1, size1);
            && LinkedAs(Coalesce(h.runs, Run(bp, h.live[bp])), ptr2, size2)
            && exists k :: 0 <= k < |Coalesce(h.runs, Run(bp, h.live[bp]))|
                           && Coalesce(h.runs, Run(bp, h.live[bp]))[k].addr == h.runs[g].addr
  {
    var b := Run(bp, h.live[bp]);
    var g := Gap(h.runs, bp);
    FreePlace(h, bp);
    FitsBetween(h.runs, b);
    Increasing(h.runs);
    FreeStores(h.runs, g, b, h.ptr, h.size);
    CoalesceKeepsPlace(h.runs, g, b);
  }

  lemma FreeKeepsValid(h: HeapState, bp: int, ptr2: map<int, int>, size2: map<int, int>)
    requires ValidState(h) && bp in h.live && bp in h.size
    requires var g := Gap(h.runs, bp);
             && LinkAt(h.runs, g, h.ptr, h.size) && LinkAt(h.runs, Next(|h.runs|, g), h.ptr, h.size)
             && (ptr2, size2) ==
                var p := h.runs[g].addr;
                var (ptr1, size1) := StoreRight(bp, h.ptr[p], h.ptr, h.size);
                StoreLeft(p, bp, ptr1, size1)
    ensures ValidState(Freed(h, bp, ptr2, size2))
    ensures Freed(h, bp, ptr2, size2).freep != NULL
  {
    hide Units, LiveUnits, LiveDisjoint, FreeList, LinkedAs, Coalesce, StoreLeft, StoreRight, Fits;
    var g := Gap(h.runs, bp);
    FreePlace(h, bp);
    FreedLinks(h, bp);
    FreedSizes(h, bp, g);
    FreeAccounts(h, bp);
    FreepInside(h, g);
  }

  // ----- malloc

  /** Unlinking run `i`: the node before it now points past it. */
  lemma LinkRemove(runs: seq<Run>, jp: nat, i: nat, ptr: map<int, int>, size: map<int, int>)
    requires Ordered(runs) && LinkedAs(runs, ptr, size)
    requires jp < |runs| && 0 < i < |runs| && Next(|runs|, jp) == i
    requires LinkAt(runs, i, ptr, size)
    ensures LinkedAs(runs[..i] + runs[i + 1..], ptr[runs[jp].addr := ptr[runs[i].addr]], size)
  {
    var out := runs[..i] + runs[i + 1..];
    var ptr' := ptr[runs[jp].addr := ptr[runs[i].addr]];
    forall j | 0 <= j < |out| ensures LinkAt(out, j, ptr', size) {
      if j < jp {
        assert LinkAt(runs, j, ptr, size);
        assert runs[j].addr < runs[jp].addr;
      } else if j > jp {
        assert LinkAt(runs, j + 1, ptr, size);
        assert runs[jp].addr < runs[j + 1].addr;
      } else {
        assert LinkAt(runs, j, ptr, size);
      }
    }
  }

  /** Shrinking run `i` from its tail, and writing the header of the part handed out. */
  lemma LinkShrink(runs: seq<Run>, i: nat, n: int, ptr: map<int, int>, size: map<int, int>)
    requires FreeList(runs) && LinkedAs(runs, ptr, size) && i < |runs| && 1 <= n < runs[i].len
    ensures LinkedAs(TakeTail(runs, i, n), ptr,
                     size[runs[i].addr := runs[i].len - n][Taken(runs, i, n).addr := n])
  {
    var out := TakeTail(runs, i, n);
    var t := Taken(runs, i, n).addr;
    var size' := size[runs[i].addr := runs[i].len - n][t := n];
    Increasing(runs);
    forall j | 0 <= j < |out| ensures LinkAt(out, j, ptr, size') {
      assert LinkAt(runs, j, ptr, size);
      assert j < i ==> runs[j].addr < runs[i].addr;
      assert j > i ==> runs[i].End() < runs[j].addr;
    }
  }

  /** The stores of malloc that take `n` units from the node `p` behind `prevp`. */
  function TakeStores(prevp: int, p: int, n: int, ptr: map<int, int>, size: map<int, int>):
    (map<int, int>, map<int, int>)
    requires p in ptr && p in size
  {
    if size[p] == n
    then (ptr[prevp := ptr[p]], size)
    else (ptr, size[p := size[p] - n][p + (size[p] - n) := n])
  }

  function MallocDone(h: HeapState, jp: nat, i: nat, n: int, ptr2: map<int, int>, size2: map<int, int>): HeapState
    requires jp < |h.runs| && i < |h.runs|
  {
    h.(freep := h.runs[jp].addr, ptr := ptr2, size := size2,
       runs := TakeTail(h.runs, i, n), live := h.live[Taken(h.runs, i, n).addr := n])
  }

  lemma TakeLinks(h: HeapState, jp: nat, i: nat, n: int)
    requires ValidState(h) && h.freep != NULL
    requires jp < |h.runs| && i < |h.runs| && Next(|h.runs|, jp) == i
    requires 1 <= n <= h.runs[i].len && LinkAt(h.runs, i, h.ptr, h.size)
    ensures var (ptr2, size2) := TakeStores(h.runs[jp].addr, h.runs[i].addr, n, h.ptr, h.size);
            && LinkedAs(TakeTail(h.runs, i, n), ptr2, size2)
            && exists k :: 0 <= k < |TakeTail(h.runs, i, n)| && TakeTail(h.runs, i, n)[k].addr == h.runs[jp].addr
  {
    Increasing(h.runs);
    var out := TakeTail(h.runs, i, n);
    if h.runs[i].len == n {
      LinkRemove(h.runs, jp, i, h.ptr, h.size);
      assert out[jp] == h.runs[jp];
    } else {
      LinkShrink(h.runs, i, n, h.ptr, h.size);
      assert out[jp].addr == h.runs[jp].addr;
    }
  }

  lemma TakeAccounts(h: HeapState, i: nat, n: int)
    requires ValidState(h) && i < |h.runs| && 1 <= n <= h.runs[i].len
    ensures var out, t := TakeTail(h.runs, i, n), Taken(h.runs, i, n).addr;
            && t !in h.live && t > h.base
            && FreeList(out) && out[0] == h.runs[0]
            && LiveDisjoint(h.live[t := n])
            && Units(out) !! LiveUnits(h.live[t := n])
            && Units(out) + LiveUnits(h.live[t := n]) == h.core
  {
    TakeTailUnits(h.runs, i, n);
    TakeTailFreeList(h.runs, i, n);
    LiveAdd(h.live, Taken(h.runs, i, n).addr, n);
  }

  /** Every live block, the new one included, has its size in its header. */
  lemma TakenSizes(h: HeapState, jp: nat, i: nat, n: int)
    requires ValidState(h) && i < |h.runs| && jp < |h.runs| && LinkAt(h.runs, i, h.ptr, h.size) &&
        1 <= n <= h.runs[i].len
    ensures var size2 := TakeStores(h.runs[jp].addr, h.runs[i].addr, n, h.ptr, h.size).1;
            var live2 := h.live[Taken(h.runs, i, n).addr := n];
            forall a :: a in live2 ==> a in size2 && size2[a] == live2[a]
  {
    hide Units, LiveUnits, LiveDisjoint, FreeList, Linked;
    NodeNotLive(h, i);
  }

  lemma FreepInside(h: HeapState, jp: nat)
    requires ValidState(h) && jp < |h.runs|
    ensures h.runs[jp].addr > 0
  {
    NonNegative(h.runs);
    Increasing(h.runs);
    assert jp > 0 ==> h.runs[0].addr < h.runs[jp].addr;
  }

  lemma MallocKeepsValid(h: HeapState, jp: nat, i: nat, n: int, ptr2: map<int, int>, size2: map<int, int>)
    requires ValidState(h) && h.freep != NULL
    requires jp < |h.runs| && i < |h.runs| && Next(|h.runs|, jp) == i
    requires 1 <= n <= h.runs[i].len && LinkAt(h.runs, i, h.ptr, h.size)
    requires (ptr2, size2) == TakeStores(h.runs[jp].addr, h.runs[i].addr, n, h.ptr, h.size)
    ensures ValidState(MallocDone(h, jp, i, n, ptr2, size2))
    ensures Taken(h.runs, i, n).addr !in h.live && Taken(h.runs, i, n).addr > 0
  {
    hide Units, LiveUnits, LiveDisjoint, FreeList, LinkedAs, LinkAt, TakeTail, TakeStores;
    TakeLinks(h, jp, i, n);
    TakeAccounts(h, i, n);
    TakenSizes(h, jp, i, n);
    FreepInside(h, jp);
  }

  /** A block fresh from sbrk, before it is freed: counted as live. */
  function Grown(h: HeapState, a: int, n: int): HeapState {
    h.(size := h.size[a := n], brk := a + n, live := h.live[a := n], core := h.core + Block(a, n))
  }

  lemma GrowKeepsValid(h: HeapState, a: int, n: int)
    requires ValidState(h) && h.freep != NULL && a >= h.brk && n >= 1
    ensures ValidState(Grown(h, a, n))
    ensures a !in h.live && a > 0 && h.live[a := n] - {a} == h.live
  {
    LiveAdd(h.live, a, n);
    var size' := h.size[a := n];
    NonNegative(h.runs);
    forall i | 0 <= i < |h.runs| ensures LinkAt(h.runs, i, h.ptr, size') {
      assert LinkAt(h.runs, i, h.ptr, h.size);
      InUnits(h.runs, i);
      assert i > 0 ==> h.runs[i].addr in Block(h.runs[i].addr, h.runs[i].len);
    }
  }

  /** The list that received `b` has a run with room for it. */
  lemma CoalesceHasRoom(h: HeapState, b: Run)
    requires ValidState(h)
    ensures |h.runs| >= 1
    ensures exists m :: 0 <= m < |Coalesce(h.runs, b)| && Coalesce(h.runs, b)[m].len >= b.len
  {
    var runs := h.runs;
    NonNegative(runs);
    var g := Gap(runs, b.addr);
    var out := CoalesceAt(runs, g, b);
    var (m, rest) := JoinRight(runs, g, b);
    if runs[g].End() == m.addr {
      assert Coalesce(runs, b) == out && out[g].len >= b.len;
    } else {
      assert Coalesce(runs, b) == out && out[g + 1].len >= b.len;
    }
  }

  lemma NodeLinked(h: HeapState, i: nat)
    requires ValidState(h) && h.freep != NULL && i < |h.runs|
    ensures LinkAt(h.runs, i, h.ptr, h.size)
  {
  }

  lemma FreepPosition(h: HeapState) returns (k: nat)
    requires ValidState(h) && h.freep != NULL
    ensures k < |h.runs| && h.runs[k].addr == h.freep
  {
    k :| k < |h.runs| && h.runs[k].addr == h.freep;
  }

  lemma SameNode(h: HeapState, i: nat, j: nat)
    requires ValidState(h) && i < |h.runs| && j < |h.runs| && h.runs[i].addr == h.runs[j].addr
    ensures i == j
  {
    Increasing(h.runs);
  }

  /** No run looked at between position `k` and position `j`, going round, has `n` units. */
  ghost predicate NoneFits(runs: seq<Run>, k: nat, j: nat, n: int)
    requires k < |runs|
  {
    forall x :: 0 <= x < |runs| && Dist(|runs|, Next(|runs|, k), x) < Dist(|runs|, Next(|runs|, k), j) ==>
        runs[x].len < n
  }

  lemma NoneFitsStep(runs: seq<Run>, k: nat, j: nat, n: int)
    requires k < |runs| && j < |runs| && j != k && NoneFits(runs, k, j, n) && runs[j].len < n
    ensures NoneFits(runs, k, Next(|runs|, j), n)
  {
  }

  lemma NoneFitsAll(runs: seq<Run>, k: nat, n: int)
    requires k < |runs| && NoneFits(runs, k, k, n) && runs[k].len < n
    ensures forall x :: 0 <= x < |runs| ==> runs[x].len < n
  {
    forall x | 0 <= x < |runs| ensures runs[x].len < n {
      assert x != k ==> Dist(|runs|, Next(|runs|, k), x) < Dist(|runs|, Next(|runs|, k), k);
    }
  }

  lemma NoneFitsStart(runs: seq<Run>, k: nat, n: int)
    requires k < |runs|
    ensures NoneFits(runs, k, Next(|runs|, k), n)
  {
  }

  lemma TakenAddr(runs: seq<Run>, i: nat, n: int)
    requires i < |runs|
    ensures Taken(runs, i, n).addr == runs[i].addr + (runs[i].len - n)
  {
  }

  lemma BrkPositive(h: HeapState)
    requires ValidState(h)
    ensures 0 < h.base < h.brk
  {
  }

  /** The first call of malloc makes a list of `base` alone. */
  lemma Initialise(h: HeapState)
    requires ValidState(h) && h.freep == NULL
    ensures ValidState(h.(freep := h.base, ptr := h.ptr[h.base := h.base], size := h.size[h.base := 0]))
    ensures h.base != NULL
  {
  }

  class Heap {
    const base: int
    var freep: int
    var ptr: map<int, int>
    var size: map<int, int>
    var brk: int
    var sbrkCalls: nat
    ghost var runs: seq<Run>
    ghost var live: map<int, int>
    ghost var core: set<int>

    ghost function State(): HeapState
      reads this
    {
      HeapState(base, freep, ptr, size, brk, runs, live, core)
    }

    ghost predicate Valid()
      reads this
    {
      ValidState(State())
    }

    constructor (base: int, brk: int)
      requires 0 < base < brk
      ensures Valid()
      ensures freep == NULL && runs == [Run(base, 0)] && live == map[] && core == {} && sbrkCalls == 0
    {
      this.base := base;
      this.brk := brk;
      freep := NULL;
      ptr := map[];
      size := map[];
      sbrkCalls := 0;
      runs := [Run(base, 0)];
      live := map[];
      core := {};
    }

    /** The search loop of free: the node after which `bp` belongs is reached after following at
        most one full turn of links, so no node is looked at twice. */
    method FindPlace(bp: int) returns (p: int, ghost visits: nat)
      requires Valid() && freep != NULL && base < bp
      requires forall j :: 0 <= j < |runs| ==> runs[j].addr != bp
      ensures p == runs[Gap(runs, bp)].addr
      ensures visits <= |runs|
    {
      hide Accounted, Gap, Units, Separated, Positive;
      ghost var n := |runs|;
      ghost var g := Gap(runs, bp);
      ghost var i :| 0 <= i < n && runs[i].addr == freep;
      p := freep;
      visits := 1;
      StopsExactlyAtGap(runs, bp, i);
      assert LinkAt(runs, i, ptr, size);
      while !(bp > p && bp < ptr[p])
        invariant 0 <= i < n && runs[i].addr == p
        invariant p in ptr && ptr[p] == runs[Next(n, i)].addr
        invariant Stops(p, ptr[p], bp) <==> i == g
        invariant visits + Dist(n, i, g) <= n
        decreases Dist(n, i, g)
      {
        if p >= ptr[p] && (bp > p || bp < ptr[p]) {
          break;
        }
        p := ptr[p];
        i := Next(n, i);
        visits := visits + 1;
        StopsExactlyAtGap(runs, bp, i);
        assert LinkAt(runs, i, ptr, size);
      }
    }

    /** free: gives the block back, merging it with whatever it touches. */
    method Free(ap: int) returns (ghost visits: nat)
      requires Valid()
      requires ap != NULL ==> ap - 1 in live
      modifies this
      ensures Valid()
      ensures ap == NULL ==> unchanged(this)
      ensures ap != NULL ==>
                && freep != NULL
                && runs == Coalesce(old(runs), Run(ap - 1, old(live)[ap - 1]))
                && freep == old(runs)[Gap(old(runs), ap - 1)].addr
                && live == old(live) - {ap - 1}
                && core == old(core) && brk == old(brk) && sbrkCalls == old(sbrkCalls)
      ensures visits <= |old(runs)|
    {
      hide ValidState, Fits, Coalesce, Gap;
      if ap == NULL {
        visits := 0;
        return;
      }
      var bp := ap - 1;
      ghost var h := State();
      FreePlace(h, bp);
      var p: int;
      p, visits := FindPlace(bp);
      Link(p, bp);
      FreeKeepsValid(h, bp, ptr, size);
      freep := p;
      runs := Coalesce(runs, Run(bp, live[bp]));
      live := live - {bp};
    }

    /** The four stores of free around the new block `bp` and its left neighbour `p`. */
    method Link(p: int, bp: int)
      requires p in ptr && p in size && bp in size && p != bp
      requires ptr[p] in ptr && ptr[p] in size
      modifies `ptr, `size
      ensures (ptr, size) ==
              var (ptr1, size1) := StoreRight(bp, old(ptr)[p], old(ptr), old(size));
              StoreLeft(p, bp, ptr1, size1)
      ensures forall a :: a in old(size) && a != p && a != bp ==> a in size && size[a] == old(size)[a]
    {
      var q := ptr[p];
      if bp + size[bp] == q {
        size := size[bp := size[bp] + size[q]];
        ptr := ptr[bp := ptr[q]];
      } else {
        ptr := ptr[bp := q];
      }
      if p + size[p] == bp {
        size := size[p := size[p] + size[bp]];
        ptr := ptr[p := ptr[bp]];
      } else {
        ptr := ptr[p := bp];
      }
    }

    /** sbrk: the kernel grants `nu` fresh units above everything handed out before, or fails.
        Callers may only ask for what its int argument can carry. */
    method Sbrk(nu: int) returns (p: int)
      requires nu >= 1 && SbrkArgument(nu) == nu * HEADER && brk > 0
      modifies `brk, `sbrkCalls
      ensures sbrkCalls == old(sbrkCalls) + 1
      ensures if p == -1 then brk == old(brk) else p >= old(brk) && brk == p + nu
    {
      sbrkCalls := sbrkCalls + 1;
      if * {
        p := -1;
      } else {
        p :| p >= brk;
        brk := p + nu;
      }
    }

    /** morecore: gets a new block from sbrk and frees it into the list. */
    method Morecore(nu: int) returns (p: int, ghost a: int)
      requires Valid() && freep != NULL && nu >= 1 && CoreUnits(nu) * HEADER < TWO31
      modifies this
      ensures Valid() && sbrkCalls == old(sbrkCalls) + 1 && live == old(live)
      ensures p == NULL ==> runs == old(runs) && core == old(core) && brk == old(brk) && freep == old(freep)
      ensures p != NULL ==>
                && p == freep && a >= old(brk)
                && runs == Coalesce(old(runs), Run(a, CoreUnits(nu)))
                && core == old(core) + Block(a, CoreUnits(nu))
                && brk == a + CoreUnits(nu)
    {
      hide ValidState, Coalesce, Gap;
      var n := if nu < 4096 then 4096 else nu;
      ghost var h := State();
      SbrkArgumentIff(n);
      BrkPositive(h);
      var hp := Sbrk(n);
      a := hp;
      if hp == -1 {
        return NULL, a;
      }
      GrowKeepsValid(h, hp, n);
      size := size[hp := n];
      live := live[hp := n];
      core := core + Block(hp, n);
      ghost var v := Free(hp + 1);
      return freep, a;
    }

    /** The part of malloc that carves `n` units off the node `p` behind `prevp`. */
    method TakeFrom(prevp: int, p: int, n: int, ghost jp: nat, ghost j: nat) returns (r: int)
      requires Valid() && freep != NULL
      requires jp < |runs| && runs[jp].addr == prevp && j == Next(|runs|, jp) && j < |runs| && runs[j].addr == p
      requires 1 <= n <= runs[j].len
      modifies `freep, `ptr, `size, `runs, `live
      ensures Valid()
      ensures r != NULL && r - 1 == Taken(old(runs), j, n).addr && runs == TakeTail(old(runs), j, n)
      ensures r - 1 !in old(live) && live == old(live)[r - 1 := n]
      ensures freep == prevp
    {
      hide ValidState, Taken, TakeTail;
      NodeLinked(State(), j);
      TakenAddr(runs, j, n);
      ghost var stores := TakeStores(prevp, p, n, ptr, size);
      MallocKeepsValid(State(), jp, j, n, stores.0, stores.1);
      var q := p;
      if size[p] == n {
        ptr := ptr[prevp := ptr[p]];
      } else {
        size := size[p := size[p] - n];
        q := p + size[p];
        size := size[q := n];
      }
      freep := prevp;
      runs := TakeTail(runs, j, n);
      live := live[q := n];
      r := q + 1;
    }

    /** One turn of malloc's search, from the node after freep round to freep itself. */
    method Turn(nunits: int) returns (found: bool, prevp: int, p: int, ghost k: nat, ghost jp: nat, ghost j: nat)
      requires Valid() && freep != NULL
      ensures k < |runs| && runs[k].addr == freep
      ensures jp < |runs| && runs[jp].addr == prevp && j == Next(|runs|, jp) && j < |runs| && runs[j].addr == p
      ensures found ==> runs[j].len >= nunits && NoneFits(runs, k, j, nunits)
      ensures !found ==> forall x :: 0 <= x < |runs| ==> runs[x].len < nunits
    {
      hide ValidState, NoneFits;
      k := FreepPosition(State());
      jp := k;
      prevp := freep;
      NodeLinked(State(), jp);
      p := ptr[prevp];
      j := Next(|runs|, jp);
      NoneFitsStart(runs, k, nunits);
      while true
        invariant jp < |runs| && runs[jp].addr == prevp && j == Next(|runs|, jp) && 0 <= j < |runs| && runs[j].addr == p
        invariant NoneFits(runs, k, j, nunits)
        decreases Dist(|runs|, j, k)
      {
        NodeLinked(State(), j);
        if size[p] >= nunits {
          found := true;
          return;
        }
        if p == freep {
          SameNode(State(), j, k);
          NoneFitsAll(runs, k, nunits);
          found := false;
          return;
        }
        NoneFitsStep(runs, k, j, nunits);
        prevp, jp := p, j;
        p := ptr[p];
        j := Next(|runs|, jp);
      }
    }

    /** malloc: a first fit search from freep on; when a whole turn finds nothing, one call of
        morecore, after which the second turn cannot fail.  `before` is the list the block was
        taken from and `i` the run; `a` is where new core came from, if any was asked for. */
    method Malloc(nbytes: int) returns (r: int, ghost before: seq<Run>, ghost i: nat, ghost a: int)
      requires Valid() && 0 <= nbytes < TWO64
      requires (forall x :: 0 <= x < |runs| ==> runs[x].len < UnitsFor(nbytes)) ==>
          CoreUnits(UnitsFor(nbytes)) * HEADER < TWO31
      modifies this
      ensures Valid() && sbrkCalls <= old(sbrkCalls) + 1
      ensures r == NULL ==>
                sbrkCalls == old(sbrkCalls) + 1 && runs == old(runs) && live == old(live) && core == old(core)
      ensures r != NULL ==>
                && var n := UnitsFor(nbytes);
                && (Capacity(n) >= nbytes <==> nbytes <= TWO64 - HEADER)
                && r - 1 !in old(live) && live == old(live)[r - 1 := n]
                && i < |before| && 1 <= n <= before[i].len
                && r - 1 == Taken(before, i, n).addr && runs == TakeTail(before, i, n)
      ensures r != NULL && nbytes <= TWO64 - HEADER ==>
                (live[r - 1] - 2) * HEADER < nbytes <= (live[r - 1] - 1) * HEADER
      ensures r != NULL ==> exists j :: 0 <= j < |before| && Next(|before|, j) == i && before[j].addr == freep
      ensures sbrkCalls == old(sbrkCalls) ==> r != NULL && before == old(runs) && core == old(core)
      ensures sbrkCalls == old(sbrkCalls) && old(freep) != NULL ==>
                exists k :: 0 <= k < |old(runs)| && old(runs)[k].addr == old(freep) &&
                    NoneFits(old(runs), k, i, UnitsFor(nbytes))
      ensures sbrkCalls > old(sbrkCalls) ==> forall x :: 0 <= x < |old(runs)| ==> old(runs)[x].len < UnitsFor(nbytes)
      ensures sbrkCalls > old(sbrkCalls) && r != NULL ==>
                && a >= old(brk)
                && before == Coalesce(old(runs), Run(a, CoreUnits(UnitsFor(nbytes))))
                && core == old(core) + Block(a, CoreUnits(UnitsFor(nbytes)))
    {
      hide ValidState, Coalesce, Gap, TakeTail, Taken, NoneFits;
      var nunits := UnitsFor(nbytes);
      CapacityIff(nbytes);
      if freep == NULL {
        Initialise(State());
        freep := base;
        ptr := ptr[base := base];
        size := size[base := 0];
      }
      ghost var k, jp;
      var found, prevp, p;
      ghost var first := State();
      found, prevp, p, k, jp, i := Turn(nunits);
      a := 0;
      if !found {
        p, a := Morecore(nunits);
        if p == NULL {
          before, r := runs, NULL;
          return;
        }
        CoalesceHasRoom(first, Run(a, CoreUnits(nunits)));
        found, prevp, p, k, jp, i := Turn(nunits);
        assert found;
      }
      before := runs;
      r := TakeFrom(prevp, p, nunits, jp, i);
    }
  }
}
