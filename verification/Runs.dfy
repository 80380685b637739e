/** Address-ordered lists of free runs, as the libc allocator keeps them: what freeing and
    taking do to the set of free units, and why the list is determined by that set.
    Addresses count units of sizeof(Header) = 16 bytes.
 */
module Runs {

  /** A run of `len` consecutive units starting at unit `addr`. */
  datatype Run = Run(addr: int, len: int) {
    function End(): int { addr + len }
  }

  predicate Within(u: int, a: int, n: int) {
    a <= u < a + n
  }

  /** The units from `a` up to but not including `a + n`. */
  function Block(a: int, n: int): set<int> {
    set u | a <= u < a + n && Within(u, a, n)
  }

  /** The units covered by a list of runs. */
  function Units(runs: seq<Run>): set<int> {
    set i, u | 0 <= i < |runs| && u in Block(runs[i].addr, runs[i].len) :: u
  }

  ghost predicate Separated(runs: seq<Run>) {
    forall i, j :: 0 <= i < j < |runs| ==> runs[i].End() < runs[j].addr
  }

  ghost predicate Positive(runs: seq<Run>) {
    forall i :: 0 <= i < |runs| ==> runs[i].len >= 1
  }

  /** A free list: the static header `base`, of size zero, then non-empty runs with a gap
      between any two neighbours. */
  ghost predicate FreeList(runs: seq<Run>) {
    && |runs| >= 1
    && runs[0].len == 0
    && Positive(runs[1..])
    && Separated(runs)
  }

  /** Successor position on the circular list. */
  function Next(n: int, i: int): int {
    if i + 1 == n then 0 else i + 1
  }

  /** Number of links to follow from position `a` to reach position `b`. */
  function Dist(n: int, a: int, b: int): int {
    if a <= b then b - a else b + n - a
  }

  /** Position of the last run that starts below `bp`. */
  function Gap(runs: seq<Run>, bp: int): (g: nat)
    requires |runs| >= 1
    ensures g < |runs|
  {
    if |runs| == 1 || runs[|runs| - 1].addr < bp then |runs| - 1 else Gap(runs[..|runs| - 1], bp)
  }

  lemma {:induction false} GapIsBetween(runs: seq<Run>, bp: int)
    requires FreeList(runs) && runs[0].addr < bp
    ensures runs[Gap(runs, bp)].addr < bp
    ensures forall j :: Gap(runs, bp) < j < |runs| ==> bp <= runs[j].addr
  {
    if |runs| == 1 || runs[|runs| - 1].addr < bp {
    } else {
      var shorter := runs[..|runs| - 1];
      assert shorter[1..] == runs[1..][..|runs| - 2];
      GapIsBetween(shorter, bp);
    }
  }

  /** Room for `b`: it starts above `base` and touches no unit of the list. */
  ghost predicate Fits(runs: seq<Run>, b: Run) {
    && b.len >= 1
    && |runs| >= 1
    && runs[0].addr < b.addr
    && Block(b.addr, b.len) !! Units(runs)
  }

  lemma FitsBetween(runs: seq<Run>, b: Run)
    requires FreeList(runs) && Fits(runs, b)
    ensures var g := Gap(runs, b.addr);
            && runs[g].addr < b.addr && runs[g].End() <= b.addr
            && (g + 1 < |runs| ==> b.End() <= runs[g + 1].addr && b.addr < runs[g + 1].addr)
  {
    var g := Gap(runs, b.addr);
    GapIsBetween(runs, b.addr);
    OverlapShares(runs[g], b);
    InUnits(runs, g);
    if g + 1 < |runs| {
      assert runs[g + 1] == runs[1..][g];
      OverlapShares(b, runs[g + 1]);
      InUnits(runs, g + 1);
    }
  }

  lemma InUnits(runs: seq<Run>, i: nat)
    requires i < |runs|
    ensures Block(runs[i].addr, runs[i].len) <= Units(runs)
  {
  }

  /** Two non-empty runs in address order either are clear of each other or share a unit. */
  lemma OverlapShares(a: Run, b: Run)
    requires a.addr <= b.addr && b.len >= 1
    ensures a.End() > b.addr ==> b.addr in Block(a.addr, a.len) && b.addr in Block(b.addr, b.len)
  {
  }

  /** `b` absorbs the run that starts where it ends, if that is the one at position `g + 1`. */
  function JoinRight(runs: seq<Run>, g: nat, b: Run): (r: (Run, seq<Run>))
    requires g < |runs|
  {
    if g + 1 < |runs| && b.End() == runs[g + 1].addr
    then (Run(b.addr, b.len + runs[g + 1].len), runs[g + 2..])
    else (b, runs[g + 1..])
  }

  /** `x` absorbs `m` if it ends where `m` starts; otherwise the two stay neighbours. */
  function JoinLeft(x: Run, m: Run): seq<Run> {
    if x.End() == m.addr then [Run(x.addr, x.len + m.len)] else [x, m]
  }

  /** The list after inserting `b` behind position `g`, merging on both sides. */
  function CoalesceAt(runs: seq<Run>, g: nat, b: Run): seq<Run>
    requires g < |runs|
  {
    var (m, rest) := JoinRight(runs, g, b);
    runs[..g] + (JoinLeft(runs[g], m) + rest)
  }

  function Coalesce(runs: seq<Run>, b: Run): seq<Run>
    requires |runs| >= 1
  {
    CoalesceAt(runs, Gap(runs, b.addr), b)
  }

  lemma UnitsConcat(a: seq<Run>, b: seq<Run>)
    ensures Units(a + b) == Units(a) + Units(b)
  {
    var c := a + b;
    forall u | u in Units(a) ensures u in Units(c) {
      var i :| 0 <= i < |a| && u in Block(a[i].addr, a[i].len);
      assert c[i] == a[i];
    }
    forall u | u in Units(b) ensures u in Units(c) {
      var i :| 0 <= i < |b| && u in Block(b[i].addr, b[i].len);
      assert c[|a| + i] == b[i];
    }
  }

  lemma UnitsOne(r: Run)
    ensures Units([r]) == Block(r.addr, r.len)
  {
    forall u | u in Block(r.addr, r.len) ensures u in Units([r]) {
      assert [r][0] == r;
    }
  }

  lemma UnitsSplit3(a: seq<Run>, r: Run, b: seq<Run>)
    ensures Units(a + [r] + b) == Units(a) + Block(r.addr, r.len) + Units(b)
  {
    UnitsConcat(a + [r], b);
    UnitsConcat(a, [r]);
    UnitsOne(r);
  }

  lemma JoinRightUnits(runs: seq<Run>, g: nat, b: Run)
    requires g < |runs| && b.len >= 1
    requires forall j :: 0 <= j < |runs| ==> runs[j].len >= 0
    ensures var (m, rest) := JoinRight(runs, g, b);
            Block(m.addr, m.len) + Units(rest) == Block(b.addr, b.len) + Units(runs[g + 1..])
  {
    if g + 1 < |runs| && b.End() == runs[g + 1].addr {
      assert runs[g + 1..] == [] + [runs[g + 1]] + runs[g + 2..];
      UnitsSplit3([], runs[g + 1], runs[g + 2..]);
      var m := JoinRight(runs, g, b).0;
      assert Block(m.addr, m.len) == Block(b.addr, b.len) + Block(runs[g + 1].addr, runs[g + 1].len);
    }
  }

  lemma JoinLeftUnits(x: Run, m: Run)
    requires x.len >= 0 && m.len >= 0
    ensures Units(JoinLeft(x, m)) == Block(x.addr, x.len) + Block(m.addr, m.len)
  {
    if x.End() == m.addr {
      UnitsOne(Run(x.addr, x.len + m.len));
    } else {
      assert [x, m] == [x] + [m];
      UnitsConcat([x], [m]);
      UnitsOne(x);
      UnitsOne(m);
    }
  }

  /** Coalescing adds exactly the freed units, whatever merges happen. */
  lemma CoalesceUnits(runs: seq<Run>, b: Run)
    requires FreeList(runs) && Fits(runs, b)
    ensures Units(Coalesce(runs, b)) == Units(runs) + Block(b.addr, b.len)
  {
    hide Units, Block, JoinLeft, Separated, Positive, Gap;
    var g := Gap(runs, b.addr);
    NonNegative(runs);
    JoinRightUnits(runs, g, b);
    var (m, rest) := JoinRight(runs, g, b);
    var before, after := Units(runs[..g]), Units(runs[g + 1..]);
    assert Units(runs) == before + Block(runs[g].addr, runs[g].len) + after by {
      assert runs == runs[..g] + [runs[g]] + runs[g + 1..];
      UnitsSplit3(runs[..g], runs[g], runs[g + 1..]);
    }
    JoinLeftUnits(runs[g], m);
    UnitsConcat(JoinLeft(runs[g], m), rest);
    UnitsConcat(runs[..g], JoinLeft(runs[g], m) + rest);
  }

  lemma NonNegative(runs: seq<Run>)
    requires FreeList(runs)
    ensures forall j :: 0 <= j < |runs| ==> runs[j].len >= 0
    ensures forall j :: 1 <= j < |runs| ==> runs[j].len >= 1
  {
    forall j | 1 <= j < |runs| ensures runs[j].len >= 1 {
      assert runs[j] == runs[1..][j - 1];
    }
  }

  lemma SeparatedConcat(a: seq<Run>, b: seq<Run>)
    requires Separated(a) && Separated(b)
    requires forall j :: 0 <= j < |a| ==> a[j].len >= 0
    requires forall j :: 0 <= j < |b| ==> b[j].len >= 0
    requires |a| > 0 && |b| > 0 ==> a[|a| - 1].End() < b[0].addr
    ensures Separated(a + b)
  {
    forall i, j | 0 <= i < j < |a + b| ensures (a + b)[i].End() < (a + b)[j].addr {
      if i < |a| <= j {
        assert i < |a| - 1 ==> a[i].End() < a[|a| - 1].addr;
        assert j > |a| ==> b[0].End() < b[j - |a|].addr;
      }
    }
  }

  lemma JoinRightSeparated(runs: seq<Run>, g: nat, b: Run)
    requires g < |runs| && b.len >= 1 && Separated(runs) && Positive(runs[g + 1..])
    requires g + 1 < |runs| ==> b.End() <= runs[g + 1].addr
    ensures var (m, rest) := JoinRight(runs, g, b);
            && m.addr == b.addr && m.len >= 1 && Positive(rest) && Separated(rest)
            && (rest != [] ==> m.End() < rest[0].addr)
  {
    if g + 1 < |runs| {
      assert runs[g + 1] == runs[g + 1..][0];
      assert runs[g + 2..] == runs[g + 1..][1..];
    }
  }

  lemma InsertSeparated(before: seq<Run>, x: Run, m: Run, rest: seq<Run>)
    requires Separated(before + [x]) && Separated(rest)
    requires forall j :: 0 <= j < |before| ==> before[j].len >= 0
    requires x.len >= 0 && m.len >= 1 && Positive(rest)
    requires x.End() <= m.addr && (rest != [] ==> m.End() < rest[0].addr)
    ensures Separated(before + (JoinLeft(x, m) + rest))
  {
    var all := before + [x];
    assert forall i :: 0 <= i < |before| ==> all[i] == before[i] && all[|before|] == x;
    assert Separated(before);
    SeparatedConcat(JoinLeft(x, m), rest);
    SeparatedConcat(before, JoinLeft(x, m) + rest);
  }

  lemma InsertPositive(before: seq<Run>, x: Run, m: Run, rest: seq<Run>)
    requires Positive((before + [x])[1..]) && m.len >= 1 && Positive(rest)
    requires before == [] ==> x.len == 0 && x.addr < m.addr
    ensures Positive((before + (JoinLeft(x, m) + rest))[1..])
  {
    var tail := JoinLeft(x, m) + rest;
    if before == [] {
      assert (before + tail)[1..] == [m] + rest;
    } else {
      assert (before + [x])[1..] == before[1..] + [x];
      assert x == (before[1..] + [x])[|before| - 1];
      assert Positive(tail);
      assert (before + tail)[1..] == before[1..] + tail;
      assert forall j :: 0 <= j < |before| - 1 ==> before[1..][j] == (before[1..] + [x])[j];
    }
  }

  lemma FreeListAround(runs: seq<Run>, g: nat)
    requires FreeList(runs) && g < |runs|
    ensures Separated(runs) && Positive(runs[g + 1..])
    ensures Separated(runs[..g] + [runs[g]]) && Positive((runs[..g] + [runs[g]])[1..])
    ensures runs[0].len == 0
  {
    assert runs[..g] + [runs[g]] == runs[..g + 1];
    assert runs[..g + 1][1..] == runs[1..][..g];
    assert runs[g + 1..] == runs[1..][g..];
  }

  lemma FrontStays(runs: seq<Run>, g: nat, m: Run, rest: seq<Run>)
    requires g < |runs| && runs[0].len == 0 && (g == 0 ==> runs[0].addr < m.addr)
    ensures |runs[..g] + (JoinLeft(runs[g], m) + rest)| >= 1
    ensures (runs[..g] + (JoinLeft(runs[g], m) + rest))[0] == runs[0]
  {
    if g == 0 {
      assert JoinLeft(runs[0], m) == [runs[0], m];
    }
  }

  lemma CoalesceAtFreeList(runs: seq<Run>, g: nat, b: Run)
    requires FreeList(runs) && g < |runs| && b.len >= 1
    requires runs[g].addr < b.addr && runs[g].End() <= b.addr
    requires g + 1 < |runs| ==> b.End() <= runs[g + 1].addr
    ensures FreeList(CoalesceAt(runs, g, b)) && CoalesceAt(runs, g, b)[0] == runs[0]
  {
    hide Separated, Positive, JoinLeft;
    NonNegative(runs);
    FreeListAround(runs, g);
    JoinRightSeparated(runs, g, b);
    var (m, rest) := JoinRight(runs, g, b);
    InsertSeparated(runs[..g], runs[g], m, rest);
    InsertPositive(runs[..g], runs[g], m, rest);
    FrontStays(runs, g, m, rest);
  }

  /** The list stays sorted, with a gap between neighbours and `base` in front. */
  lemma CoalesceFreeList(runs: seq<Run>, b: Run)
    requires FreeList(runs) && Fits(runs, b)
    ensures FreeList(Coalesce(runs, b)) && Coalesce(runs, b)[0] == runs[0]
  {
    FitsBetween(runs, b);
    CoalesceAtFreeList(runs, Gap(runs, b.addr), b);
  }

  /** The list after taking `n` units from the tail of run `i`; the run goes away if it is used up. */
  function TakeTail(runs: seq<Run>, i: nat, n: int): seq<Run>
    requires i < |runs|
  {
    if runs[i].len == n then runs[..i] + runs[i + 1..] else runs[i := Run(runs[i].addr, runs[i].len - n)]
  }

  /** The units handed out by TakeTail. */
  function Taken(runs: seq<Run>, i: nat, n: int): Run
    requires i < |runs|
  {
    Run(runs[i].addr + runs[i].len - n, n)
  }

  lemma TakeTailUnits(runs: seq<Run>, i: nat, n: int)
    requires FreeList(runs) && i < |runs| && 1 <= n <= runs[i].len
    ensures var t := Taken(runs, i, n);
            && Block(t.addr, t.len) <= Units(runs)
            && Units(TakeTail(runs, i, n)) == Units(runs) - Block(t.addr, t.len)
    ensures runs[0].addr < Taken(runs, i, n).addr
  {
    NonNegative(runs);
    var t := Taken(runs, i, n);
    var before, after := runs[..i], runs[i + 1..];
    assert runs == before + [runs[i]] + after;
    UnitsSplit3(before, runs[i], after);
    var kept := Run(runs[i].addr, runs[i].len - n);
    assert Block(runs[i].addr, runs[i].len) == Block(kept.addr, kept.len) + Block(t.addr, t.len);
    assert Block(kept.addr, kept.len) !! Block(t.addr, t.len);
    forall j, u | 0 <= j < |runs| && j != i && u in Block(runs[j].addr, runs[j].len)
      ensures u !in Block(runs[i].addr, runs[i].len)
    {
      assert j < i ==> runs[j].End() < runs[i].addr;
      assert i < j ==> runs[i].End() < runs[j].addr;
    }
    assert Units(before) !! Block(t.addr, t.len);
    forall u | u in Units(after) ensures u !in Block(t.addr, t.len) {
      var j :| 0 <= j < |after| && u in Block(after[j].addr, after[j].len);
      assert after[j] == runs[i + 1 + j];
    }
    if runs[i].len == n {
      UnitsConcat(before, after);
    } else {
      assert TakeTail(runs, i, n) == before + [kept] + after;
      UnitsSplit3(before, kept, after);
    }
    assert runs[0].End() < runs[i].addr;
  }

  lemma TakeTailFreeList(runs: seq<Run>, i: nat, n: int)
    requires FreeList(runs) && i < |runs| && 1 <= n <= runs[i].len
    ensures FreeList(TakeTail(runs, i, n)) && TakeTail(runs, i, n)[0] == runs[0]
  {
    NonNegative(runs);
    var out := TakeTail(runs, i, n);
    assert forall j :: 1 <= j < |out| ==> out[j].len >= 1;
    assert forall j :: 0 <= j < |out[1..]| ==> out[1..][j] == out[j + 1];
  }

  // ----- the list is determined by the set of free units

  lemma FirstRunByUnits(a: seq<Run>, b: seq<Run>)
    requires Separated(a) && Positive(a) && Separated(b) && Positive(b)
    requires |a| >= 1 && |b| >= 1
    requires Units(a) == Units(b)
    ensures a[0].addr >= b[0].addr
  {
    assert a[0].addr in Block(a[0].addr, a[0].len);
    assert a[0].addr in Units(b);
    var i :| 0 <= i < |b| && a[0].addr in Block(b[i].addr, b[i].len);
    assert i > 0 ==> b[0].End() < b[i].addr;
  }

  lemma FirstRunEnd(a: seq<Run>, b: seq<Run>)
    requires Separated(a) && Positive(a) && Separated(b) && Positive(b)
    requires |a| >= 1 && |b| >= 1 && a[0].addr == b[0].addr
    requires Units(a) == Units(b)
    ensures a[0].len <= b[0].len
  {
    var e := b[0].End();
    InUnits(a, 0);
    forall i | 0 <= i < |b| ensures e !in Block(b[i].addr, b[i].len) {
      assert i > 0 ==> e < b[i].addr;
    }
    assert e !in Units(b);
    assert e !in Block(a[0].addr, a[0].len);
  }

  lemma TailUnits(a: seq<Run>)
    requires Separated(a) && Positive(a) && |a| >= 1
    ensures Units(a[1..]) == Units(a) - Block(a[0].addr, a[0].len)
    ensures Separated(a[1..]) && Positive(a[1..])
  {
    assert a == [] + [a[0]] + a[1..];
    UnitsSplit3([], a[0], a[1..]);
    forall u | u in Units(a[1..]) ensures u !in Block(a[0].addr, a[0].len) {
      var i :| 0 <= i < |a[1..]| && u in Block(a[1..][i].addr, a[1..][i].len);
      assert a[0].End() < a[i + 1].addr;
    }
  }

  lemma UnitsEmpty(a: seq<Run>)
    requires Positive(a)
    ensures Units(a) == {} <==> a == []
  {
    if a != [] {
      InUnits(a, 0);
      assert a[0].addr in Block(a[0].addr, a[0].len);
    }
  }

  /** Two separated lists of non-empty runs over the same units are the same list: the free
      list is the decomposition of the free units into maximal runs. */
  lemma {:induction false} Canonical(a: seq<Run>, b: seq<Run>)
    requires Separated(a) && Positive(a) && Separated(b) && Positive(b)
    requires Units(a) == Units(b)
    ensures a == b
  {
    if |a| == 0 || |b| == 0 {
      UnitsEmpty(a);
      UnitsEmpty(b);
    } else {
      FirstRunByUnits(a, b);
      FirstRunByUnits(b, a);
      FirstRunEnd(a, b);
      FirstRunEnd(b, a);
      TailUnits(a);
      TailUnits(b);
      Canonical(a[1..], b[1..]);
      assert a == [a[0]] + a[1..] && b == [b[0]] + b[1..];
    }
  }

  lemma CanonicalFreeList(a: seq<Run>, b: seq<Run>)
    requires FreeList(a) && FreeList(b) && a[0] == b[0]
    requires Units(a) == Units(b)
    ensures a == b
  {
    assert a == [] + [a[0]] + a[1..] && b == [] + [b[0]] + b[1..];
    UnitsSplit3([], a[0], a[1..]);
    UnitsSplit3([], b[0], b[1..]);
    assert Separated(a[1..]) && Separated(b[1..]);
    Canonical(a[1..], b[1..]);
  }

  /** Freeing a list of blocks one after the other. */
  function FreeAll(runs: seq<Run>, bs: seq<Run>): seq<Run>
    requires |runs| >= 1
    decreases |bs|
  {
    if bs == [] then runs
    else
      var next := Coalesce(runs, bs[0]);
      if |next| >= 1 then FreeAll(next, bs[1..]) else next
  }

  /** Blocks that may be freed together: clear of the free list and of each other. */
  ghost predicate AllFit(runs: seq<Run>, bs: seq<Run>) {
    && (forall i :: 0 <= i < |bs| ==> Fits(runs, bs[i]))
    && (forall i, j :: 0 <= i < j < |bs| ==> Block(bs[i].addr, bs[i].len) !! Block(bs[j].addr, bs[j].len))
  }

  lemma UnitsNil()
    ensures Units([]) == {}
  {
  }

  /** Freeing one of the blocks leaves room for the others. */
  lemma AllFitNext(runs: seq<Run>, bs: seq<Run>)
    requires FreeList(runs) && bs != [] && AllFit(runs, bs)
    ensures FreeList(Coalesce(runs, bs[0])) && AllFit(Coalesce(runs, bs[0]), bs[1..])
  {
    hide Coalesce;
    var next := Coalesce(runs, bs[0]);
    CoalesceUnits(runs, bs[0]);
    CoalesceFreeList(runs, bs[0]);
    forall i | 0 <= i < |bs[1..]| ensures Fits(next, bs[1..][i]) {
      var b := bs[1..][i];
      assert b == bs[i + 1] && Fits(runs, b);
      assert Block(bs[0].addr, bs[0].len) !! Block(b.addr, b.len);
    }
  }

  lemma FirstFits(runs: seq<Run>, bs: seq<Run>)
    requires bs != [] && AllFit(runs, bs)
    ensures Fits(runs, bs[0])
  {
    hide Fits;
  }

  lemma FreeListNotEmpty(runs: seq<Run>)
    requires FreeList(runs)
    ensures |runs| >= 1
  {
  }

  lemma UnitsFirst(bs: seq<Run>)
    requires bs != []
    ensures Units(bs) == Block(bs[0].addr, bs[0].len) + Units(bs[1..])
  {
    hide Units, Block;
    assert bs == [] + [bs[0]] + bs[1..];
    UnitsSplit3([], bs[0], bs[1..]);
    UnitsNil();
  }

  lemma {:induction false} FreeAllUnits(runs: seq<Run>, bs: seq<Run>)
    requires FreeList(runs) && AllFit(runs, bs)
    ensures FreeList(FreeAll(runs, bs)) && FreeAll(runs, bs)[0] == runs[0]
    ensures Units(FreeAll(runs, bs)) == Units(runs) + Units(bs)
    decreases |bs|
  {
    hide Coalesce, Units, Block, Fits, AllFit, FreeList;
    FreeListNotEmpty(runs);
    if bs == [] {
      UnitsNil();
    } else {
      var next := Coalesce(runs, bs[0]);
      FirstFits(runs, bs);
      CoalesceUnits(runs, bs[0]);
      CoalesceFreeList(runs, bs[0]);
      FreeListNotEmpty(next);
      AllFitNext(runs, bs);
      FreeAllUnits(next, bs[1..]);
      UnitsFirst(bs);
    }
  }

  /** Freeing the same blocks in any two orders leaves the same free list. */
  lemma FreeOrderIrrelevant(runs: seq<Run>, order1: seq<Run>, order2: seq<Run>)
    requires FreeList(runs) && AllFit(runs, order1) && AllFit(runs, order2)
    requires multiset(order1) == multiset(order2)
    ensures FreeAll(runs, order1) == FreeAll(runs, order2)
  {
    FreeAllUnits(runs, order1);
    FreeAllUnits(runs, order2);
    SameMembers(order1, order2);
    SameMembers(order2, order1);
    CanonicalFreeList(FreeAll(runs, order1), FreeAll(runs, order2));
  }

  lemma SameMembers(a: seq<Run>, b: seq<Run>)
    requires multiset(a) == multiset(b)
    ensures Units(a) <= Units(b)
  {
    forall u | u in Units(a) ensures u in Units(b) {
      var i :| 0 <= i < |a| && u in Block(a[i].addr, a[i].len);
      assert a[i] in multiset(a);
      assert a[i] in multiset(b);
      var j :| 0 <= j < |b| && b[j] == a[i];
    }
  }

  /** malloc then free, without an sbrk in between, restores the list exactly. */
  lemma TakeThenFree(runs: seq<Run>, i: nat, n: int)
    requires FreeList(runs) && i < |runs| && 1 <= n <= runs[i].len
    ensures Coalesce(TakeTail(runs, i, n), Taken(runs, i, n)) == runs
  {
    TakeTailUnits(runs, i, n);
    TakeTailFreeList(runs, i, n);
    var t := Taken(runs, i, n);
    var rest := TakeTail(runs, i, n);
    assert Fits(rest, t);
    CoalesceUnits(rest, t);
    CoalesceFreeList(rest, t);
    CanonicalFreeList(Coalesce(rest, t), runs);
  }
}
