/** Tearing down the page table of a process. */
module AddressSpace {
  import opened Basics
  import opened PageTables
  import opened Vmm

  const VA_MIN: int := 0x40_0000
  const VA_MAX: int := 0x4000_0000_0000
  const USER_STACK_VPN: int := 0x1_FFFF_FFFF      // USER_STACK_BOTTOM
  const INT_STACK_VPN: int := 0x3_FFFF_FFFF       // INTSTACK_VIRTUAL_ADDRESS_BOTTOM
  const SYSCALL_STACK_VPN: int := 0x3_FFFF_FFFE   // SYSCALLSTACK_VIRTUAL_ADDRESS_BOTTOM

  const USER_STACK_PERM: Perm := Perm(true, false, true)
  const KERNEL_STACK_PERM: Perm := Perm(true, false, false)

  // ----- positions below a position

  /** Position `t` is `top` or lies below it. */
  predicate Under(t: Tag, top: Tag) {
    t.root == top.root && t.height <= top.height && Prefix(t.prefix, top.height - t.height) == top.prefix
  }

  /** Everything in a tree is below its root. */
  lemma UnderRoot(t: Tag)
    requires TagOk(t)
    ensures Under(t, Tag(t.root, 4, 0))
  {
    assert Prefix(t.prefix, 1) == t.prefix / 512;
    assert Prefix(t.prefix, 2) == Prefix(t.prefix, 1) / 512;
    assert Prefix(t.prefix, 3) == Prefix(t.prefix, 2) / 512;
  }

  /** The entry of `top` below which `t` lies. */
  function SlotOf(t: Tag, top: Tag): (i: nat)
    requires t.height < top.height
    ensures i < ENTRIES
  {
    Prefix(t.prefix, top.height - t.height - 1) % ENTRIES
  }

  lemma UnderChild(t: Tag, top: Tag, i: nat)
    requires t.height < top.height && i < ENTRIES
    ensures Under(t, Child(top, i)) <==> Under(t, top) && SlotOf(t, top) == i
  {
  }

  lemma {:induction false} PrefixOfQuotient(p: nat, k: nat)
    ensures Prefix(p / ENTRIES, k) == Prefix(p, k + 1)
    decreases k
  {
    if k > 0 {
      PrefixOfQuotient(p, k - 1);
    }
  }

  /** Every position on the way up from an occupied position is occupied. */
  lemma {:induction false} AncestorOccupied(m: Mem, t: Tag, top: Tag)
    requires Tree(m) && t in m.at && Under(t, top) && top.height <= 4
    ensures top in m.at
    decreases top.height - t.height
  {
    TableAt(m, t);
    if t.height < top.height {
      PrefixOfQuotient(t.prefix, top.height - t.height - 1);
      AncestorOccupied(m, Parent(t), top);
    }
  }

  /** The frames of the tables at and below position `top`. */
  ghost function FramesUnder(m: Mem, top: Tag): set<nat> {
    set t | t in m.at && Under(t, top) :: m.at[t]
  }

  /** The frames of the tables below entries 0 to i - 1 of `top`. */
  ghost function FramesBelow(m: Mem, top: Tag, i: nat): set<nat> {
    set t | t in m.at && Under(t, top) && t.height < top.height && SlotOf(t, top) < i :: m.at[t]
  }

  lemma FramesBelowStep(m: Mem, top: Tag, i: nat)
    requires i < ENTRIES && 1 <= top.height
    ensures FramesBelow(m, top, i + 1) == FramesBelow(m, top, i) + FramesUnder(m, Child(top, i))
  {
    var c := Child(top, i);
    forall t | t in m.at && t.height < top.height ensures Under(t, c) <==> Under(t, top) && SlotOf(t, top) == i {
      UnderChild(t, top, i);
    }
    hide Under, SlotOf;
    assert forall t :: t in m.at && Under(t, c) ==> t.height < top.height by { UnderLower(m, c); }
  }

  lemma UnderLower(m: Mem, c: Tag)
    ensures forall t :: t in m.at && Under(t, c) ==> t.height <= c.height
  {
  }

  lemma FramesBelowDisjoint(m: Mem, top: Tag, i: nat)
    requires Tree(m) && i < ENTRIES && 1 <= top.height
    ensures FramesBelow(m, top, i) !! FramesUnder(m, Child(top, i))
  {
    var c := Child(top, i);
    forall t, u | t in m.at && Under(t, c) && u in m.at && Under(u, top) && u.height < top.height && SlotOf(u, top) < i
      ensures m.at[t] != m.at[u]
    {
      UnderChild(t, top, i);
      assert t != u;
      if m.at[t] == m.at[u] {
        OneFramePerTable(m, t, u);
      }
    }
  }

  lemma NothingUnder(m: Mem, c: Tag)
    requires Tree(m) && c !in m.at && c.height <= 4
    ensures FramesUnder(m, c) == {}
  {
    forall t | t in m.at ensures !Under(t, c) {
      if Under(t, c) {
        AncestorOccupied(m, t, c);
      }
    }
  }

  lemma FramesWhole(m: Mem, top: Tag)
    requires Tree(m) && top in m.at
    ensures FramesUnder(m, top) == FramesBelow(m, top, ENTRIES) + {m.at[top]}
    ensures m.at[top] !in FramesBelow(m, top, ENTRIES)
    ensures FramesBelow(m, top, 0) == {}
  {
    forall t | t in m.at && m.at[t] == m.at[top] ensures t == top {
      OneFramePerTable(m, t, top);
    }
    forall t | t in m.at && Under(t, top) ensures m.at[t] in FramesBelow(m, top, ENTRIES) + {m.at[top]} {
      assert t.height == top.height ==> t == top;
    }
  }

  lemma LeafTableAlone(m: Mem, top: Tag)
    requires Tree(m) && top in m.at && top.height == 1
    ensures FramesUnder(m, top) == {m.at[top]}
  {
    forall t | t in m.at && Under(t, top) ensures t == top {
      TableAt(m, t);
    }
    assert m.at[top] in FramesUnder(m, top);
  }

  // ----- the range test of the teardown

  /** Bytes covered by a table of height `h`. */
  function Span(h: nat): nat
    requires h <= 4
  {
    if h == 0 then 0x1000 else if h == 1 then 0x20_0000 else if h == 2 then 0x4000_0000
    else if h == 3 then 0x80_0000_0000 else 0x1_0000_0000_0000
  }

  /** First virtual address covered by the table at position `t`. */
  function VaOf(t: Tag): nat
    requires t.height <= 4
  {
    t.prefix * Span(t.height)
  }

  /** `va | (j << shift)` for the entries of a table of height `h` at `va`: the bits do not overlap
      unless j is 512, whose one bit may already be set in `va`. */
  function OrShifted(va: nat, j: nat, h: nat): nat
    requires 1 <= h <= 4
  {
    if j < ENTRIES then va + j * Span(h - 1)
    else if va / Span(h) % 2 == 1 then va
    else va + Span(h)
  }

  /** The test by which the teardown skips an entry. */
  predicate Skipped(va: nat, i: nat, h: nat)
    requires 1 <= h <= 4
  {
    var low, high := OrShifted(va, i, h), OrShifted(va, i + 1, h);
    (high >= VA_MAX && low >= VA_MAX) || (high < VA_MIN && low < VA_MIN)
  }

  lemma VaOfChild(t: Tag, i: nat)
    requires 1 <= t.height <= 4 && i < ENTRIES
    ensures OrShifted(VaOf(t), i, t.height) == VaOf(Child(t, i))
  {
  }

  /** Entries with a table of the process below them are never skipped. */
  lemma TableNotSkipped(t: Tag, i: nat)
    requires TagOk(t) && 1 < t.height && i < ENTRIES && TagOk(Child(t, i))
    ensures !Skipped(VaOf(t), i, t.height)
  {
    VaOfChild(t, i);
  }

  /** Entries of the kernel half always are. */
  lemma KernelSkipped(t: Tag, i: nat)
    requires TagOk(t) && i < ENTRIES && !UserSlot(t, i)
    ensures Skipped(VaOf(t), i, t.height)
  {
  }

  // ----- freeing

  /** Memory after the frames in `freed` were given back, last one first. */
  function PushAll(m: Mem, freed: seq<nat>): Mem {
    m.(free := freed + m.free, tables := m.tables - (set f | f in freed), bytes := m.bytes - (set f | f in freed))
  }

  lemma PushAfterPushAll(m: Mem, freed: seq<nat>, f: nat)
    ensures Push(PushAll(m, freed), f) == PushAll(m, [f] + freed)
  {
    var a, b := set x | x in freed, set x | x in [f] + freed;
    assert b == a + {f};
    assert m.tables - a - {f} == m.tables - b;
    assert m.bytes - a - {f} == m.bytes - b;
    assert [f] + (freed + m.free) == [f] + freed + m.free;
  }

  lemma PushAllTwice(m: Mem, first: seq<nat>, second: seq<nat>)
    ensures PushAll(PushAll(m, first), second) == PushAll(m, second + first)
  {
    var a, b, c := set x | x in first, set x | x in second, set x | x in second + first;
    assert c == a + b;
    assert m.tables - a - b == m.tables - c;
    assert m.bytes - a - b == m.bytes - c;
    assert second + (first + m.free) == second + first + m.free;
  }

  lemma PushAllNothing(m: Mem)
    ensures PushAll(m, []) == m
  {
    var none: seq<nat> := [];
    var a := set x | x in none;
    assert a == {};
    assert m.tables - a == m.tables && m.bytes - a == m.bytes && [] + m.free == m.free;
  }

  lemma NoDupConcat(a: seq<nat>, b: seq<nat>)
    requires NoDup(a) && NoDup(b) && forall x :: x in a ==> x !in b
    ensures NoDup(a + b)
  {
    var c := a + b;
    forall i, j | 0 <= i < j < |c| ensures c[i] != c[j] {
      if i < |a| <= j {
        assert c[i] in a && c[j] in b;
      }
    }
  }

  /** `freed` lists the frames in `s`, each once. */
  ghost predicate Lists(freed: seq<nat>, s: set<nat>) {
    NoDup(freed) && forall f :: f in freed <==> f in s
  }

  lemma ListsUnion(a: seq<nat>, s: set<nat>, b: seq<nat>, t: set<nat>)
    requires Lists(a, s) && Lists(b, t) && s !! t
    ensures Lists(a + b, s + t)
  {
    NoDupConcat(a, b);
  }

  lemma ListsOne(f: nat)
    ensures Lists([f], {f})
  {
  }

  lemma ListsNothing()
    ensures Lists([], {})
  {
  }

  /** The tables at and below `top` still have the contents they had in `m0`. */
  ghost predicate Intact(m0: Mem, m: Mem, top: Tag) {
    forall t :: t in m0.at && Under(t, top) ==>
      m0.at[t] in m0.tables && m0.at[t] in m.tables && m.tables[m0.at[t]] == m0.tables[m0.at[t]]
  }

  lemma IntactTop(m0: Mem, m: Mem, top: Tag)
    requires Intact(m0, m, top) && top in m0.at
    ensures m0.at[top] in m0.tables && m0.at[top] in m.tables && m.tables[m0.at[top]] == m0.tables[m0.at[top]]
  {
    assert Under(top, top);
  }

  /** Freeing what is below other entries leaves this table, and the tables below entry `i`, alone. */
  lemma IntactAfter(m0: Mem, m: Mem, top: Tag, i: nat, freed: seq<nat>)
    requires Tree(m0) && top in m0.at && 1 < top.height && i < ENTRIES
    requires Intact(m0, m, top) && Lists(freed, FramesBelow(m0, top, i))
    ensures Intact(m0, PushAll(m, freed), Child(top, i))
    ensures m0.at[top] in m0.tables && m0.at[top] in PushAll(m, freed).tables
    ensures PushAll(m, freed).tables[m0.at[top]] == m0.tables[m0.at[top]]
  {
    IntactTop(m0, m, top);
    FramesBelowDisjoint(m0, top, i);
    BelowIsNotTop(m0, top, i);
    forall t | t in m0.at && Under(t, Child(top, i))
      ensures m0.at[t] in m0.tables && m0.at[t] in PushAll(m, freed).tables &&
          PushAll(m, freed).tables[m0.at[t]] == m0.tables[m0.at[t]]
    {
      UnderChild(t, top, i);
      assert m0.at[t] in FramesUnder(m0, Child(top, i));
    }
  }

  lemma BelowIsNotTop(m: Mem, top: Tag, i: nat)
    requires Tree(m) && top in m.at && i <= ENTRIES
    ensures m.at[top] !in FramesBelow(m, top, i)
  {
    forall t | t in m.at && m.at[t] == m.at[top] ensures t == top {
      OneFramePerTable(m, t, top);
    }
  }

  /** vmm_user_pagetable_free_recursive: frees the tables of the process at and below position
      `top`, each exactly once, and nothing else. */
  method FreeRecursive(v: Manager, ghost m0: Mem, ghost top: Tag, table: nat, initialVa: nat, level: nat)
    returns (ghost freed: seq<nat>)
    requires Tree(m0) && top in m0.at && m0.at[top] == table && TagOk(top)
    requires level == top.height - 1 && initialVa == VaOf(top)
    requires Intact(m0, v.m, top)
    requires table in m0.tables
    modifies v
    ensures v.m == PushAll(old(v.m), freed)
    ensures Lists(freed, FramesUnder(m0, top))
    decreases level
  {
    hide Tree, Intact, PushAll, Push, Lists, FramesUnder, FramesBelow, VaOf, Skipped, Under;
    IntactTop(m0, v.m, top);
    ListsOne(table);
    PushAllNothing(v.m);
    if level == 0 {
      PushAfterPushAll(v.m, [], table);
      v.Kfree(table);
      LeafTableAlone(m0, top);
      assert [table] + [] == [table];
      freed := [table];
      return;
    }
    freed := [];
    ListsNothing();
    FramesWhole(m0, top);
    var i := 0;
    while i < ENTRIES
      invariant 0 <= i <= ENTRIES
      invariant v.m == PushAll(old(v.m), freed)
      invariant Lists(freed, FramesBelow(m0, top, i))
    {
      IntactAfter(m0, old(v.m), top, i, freed);
      EntryAt(m0, top, i);
      FramesBelowStep(m0, top, i);
      FramesBelowDisjoint(m0, top, i);
      var pte := v.m.tables[table][i];
      if !pte.present {
        EmptySlot(m0, top, i);
        assert FramesBelow(m0, top, i + 1) == FramesBelow(m0, top, i);
        i := i + 1;
        continue;
      }
      assert !pte.huge;   // the panic on a huge page is not reached
      if Skipped(initialVa, i, level + 1) {
        EmptySlot(m0, top, i);
        assert FramesBelow(m0, top, i + 1) == FramesBelow(m0, top, i);
      } else {
        PresentSlot(m0, top, i);
        VaOfChild(top, i);
        ghost var below := FreeRecursive(v, m0, Child(top, i), pte.address, OrShifted(initialVa, i, level + 1),
            level - 1);
        PushAllTwice(old(v.m), freed, below);
        ListsUnion(below, FramesUnder(m0, Child(top, i)), freed, FramesBelow(m0, top, i));
        assert FramesBelow(m0, top, i + 1) == FramesUnder(m0, Child(top, i)) + FramesBelow(m0, top, i);
        freed := below + freed;
      }
      i := i + 1;
    }
    PushAfterPushAll(old(v.m), freed, table);
    v.Kfree(table);
    ListsUnion([table], {table}, freed, FramesBelow(m0, top, ENTRIES));
    assert FramesUnder(m0, top) == {table} + FramesBelow(m0, top, ENTRIES);
    freed := [table] + freed;
  }

  /** An entry that is absent or skipped has no table of the process below it. */
  lemma EmptySlot(m: Mem, top: Tag, i: nat)
    requires Tree(m) && top in m.at && 1 < top.height && i < ENTRIES
    requires m.at[top] in m.tables && |m.tables[m.at[top]]| == ENTRIES
    requires !m.tables[m.at[top]][i].present || Skipped(VaOf(top), i, top.height)
    ensures FramesUnder(m, Child(top, i)) == {}
  {
    EntryAt(m, top, i);
    TableAt(m, top);
    if Child(top, i) in m.at {
      TableAt(m, Child(top, i));
      TableNotSkipped(top, i);
    }
    NothingUnder(m, Child(top, i));
  }

  lemma PresentSlot(m: Mem, top: Tag, i: nat)
    requires Tree(m) && top in m.at && 1 < top.height && i < ENTRIES
    requires m.at[top] in m.tables && |m.tables[m.at[top]]| == ENTRIES
    requires m.tables[m.at[top]][i].present && !Skipped(VaOf(top), i, top.height)
    ensures Child(top, i) in m.at && m.tables[m.at[top]][i].address == m.at[Child(top, i)] &&
        !m.tables[m.at[top]][i].huge
    ensures TagOk(Child(top, i)) && m.at[Child(top, i)] in m.tables
  {
    EntryAt(m, top, i);
    if !UserSlot(top, i) {
      KernelSkipped(top, i);
    }
    TableAt(m, Child(top, i));
  }

  // ----- the whole page table of a process

  /** Memory after all tables of `root` and some of its data frames were given back. */
  ghost function Torn(m: Mem, root: nat, freed: seq<nat>): Mem {
    PushAll(m, freed).(
      at := map t | t in m.at && t.root != root :: m.at[t],
      owner := map f | f in m.owner && m.owner[f].0 != root :: m.owner[f])
  }

  /** `freed` lists, each once, the tables of `root` and frames that `root` owns. */
  ghost predicate TearsDown(m: Mem, root: nat, freed: seq<nat>) {
    && NoDup(freed)
    && (forall f :: f in freed ==>
          (f in m.owner && m.owner[f].0 == root) || (exists t :: t in m.at && t.root == root && m.at[t] == f))
  }

  lemma TornFrame(m: Mem, root: nat, freed: seq<nat>, f: nat)
    requires Tree(m) && FramesOk(m) && TearsDown(m, root, freed) && f in freed
    ensures f !in m.free && f !in m.kernel
    ensures f in m.owner ==> m.owner[f].0 == root
    ensures forall t :: t in m.at && m.at[t] == f ==> t.root == root
  {
    forall t | t in m.at && m.at[t] == f ensures t.root == root && f !in m.free && f !in m.kernel && f !in m.owner {
      TableAt(m, t);
      forall u | u in m.at && m.at[u] == f ensures u == t {
        OneFramePerTable(m, u, t);
      }
    }
  }

  lemma TornTree(m: Mem, root: nat, freed: seq<nat>)
    requires Tree(m) && FramesOk(m) && TearsDown(m, root, freed)
    ensures Tree(Torn(m, root, freed))
  {
    hide TearsDown;
    var m' := Torn(m, root, freed);
    forall t | t in m'.at ensures TableOk(m', t) {
      TornTable(m, root, freed, t);
    }
    forall t, i: nat | t in m'.at && i < ENTRIES ensures EntryOk(m', t, i) {
      TornTable(m, root, freed, t);
      EntryAt(m, t, i);
    }
  }

  lemma TornTable(m: Mem, root: nat, freed: seq<nat>, t: Tag)
    requires Tree(m) && FramesOk(m) && TearsDown(m, root, freed) && t in m.at && t.root != root
    ensures t in Torn(m, root, freed).at && TableOk(Torn(m, root, freed), t)
    ensures m.at[t] in m.tables && Torn(m, root, freed).tables[m.at[t]] == m.tables[m.at[t]]
  {
    hide Tree, FramesOk, TearsDown;
    TableAt(m, t);
    if m.at[t] in freed {
      TornFrame(m, root, freed, m.at[t]);
    }
  }

  lemma TornFrames(m: Mem, root: nat, freed: seq<nat>)
    requires Tree(m) && FramesOk(m) && TearsDown(m, root, freed)
    ensures FramesOk(Torn(m, root, freed))
  {
    hide Tree;
    forall f | f in freed ensures f !in m.free && f !in m.kernel && (f in m.owner ==> m.owner[f].0 == root) {
      TornFrame(m, root, freed, f);
    }
    NoDupConcat(freed, m.free);
  }

  lemma TornTranslates(m: Mem, root: nat, freed: seq<nat>, r: nat, v: nat)
    requires Tree(m) && FramesOk(m) && TearsDown(m, root, freed)
    ensures Translate(Torn(m, root, freed), r, v) == if r == root then None else Translate(m, r, v)
  {
    hide Tree, FramesOk, TearsDown, Prefix;
    var t := OnPath(r, v, 1);
    if t in m.at && r != root {
      TornTable(m, root, freed, t);
    }
  }

  /** Teardown keeps every invariant and leaves the other processes' memory alone. */
  lemma TornOk(m: Mem, root: nat, freed: seq<nat>)
    requires MemOk(m) && TearsDown(m, root, freed)
    ensures MemOk(Torn(m, root, freed))
    ensures forall r: nat, v: nat :: Translate(Torn(m, root, freed), r, v) == if r == root then None
        else Translate(m, r, v)
  {
    hide Tree, FramesOk, TearsDown, Translate;
    TornTree(m, root, freed);
    TornFrames(m, root, freed);
    var m' := Torn(m, root, freed);
    forall r: nat, v: nat ensures Translate(m', r, v) == if r == root then None else Translate(m, r, v) {
      TornTranslates(m, root, freed, r, v);
    }
  }

  /** The frame behind a stack page of `root`, with the right user bit. */
  function StackFrame(m: Mem, root: nat, vpn: nat, user: bool): Option<nat> {
    var e := Translate(m, root, vpn);
    if e.Some? && e.value.us == user then Some(e.value.address) else None
  }

  lemma StacksDistinct(m: Mem, root: nat, us: nat, is_: nat, ss: nat)
    requires MemOk(m)
    requires StackFrame(m, root, USER_STACK_VPN, true) == Some(us)
    requires StackFrame(m, root, INT_STACK_VPN, false) == Some(is_)
    requires StackFrame(m, root, SYSCALL_STACK_VPN, false) == Some(ss)
    ensures Lists([ss, is_, us], {ss, is_, us})
    ensures forall f :: f in {ss, is_, us} ==> f in m.owner && m.owner[f].0 == root
  {
    hide Translate;
    OwnedFrame(m, root, USER_STACK_VPN);
    OwnedFrame(m, root, INT_STACK_VPN);
    OwnedFrame(m, root, SYSCALL_STACK_VPN);
  }

  lemma StacksAreNotTables(m: Mem, root: nat, stacks: seq<nat>)
    requires MemOk(m) && forall f :: f in stacks ==> f in m.owner
    ensures Intact(m, PushAll(m, stacks), Tag(root, 4, 0))
    ensures forall f :: f in stacks ==> f !in FramesUnder(m, Tag(root, 4, 0))
  {
    hide Owned, FramesOk;
    forall t | t in m.at ensures m.at[t] in m.tables && m.at[t] !in stacks {
      TableAt(m, t);
    }
  }

  lemma TearsDownAll(m: Mem, root: nat, stacks: seq<nat>, s: set<nat>, freed: seq<nat>)
    requires Lists(stacks, s) && Lists(freed, FramesUnder(m, Tag(root, 4, 0)))
    requires forall f :: f in s ==> f in m.owner && m.owner[f].0 == root
    requires forall f :: f in stacks ==> f !in FramesUnder(m, Tag(root, 4, 0))
    ensures TearsDown(m, root, freed + stacks)
    ensures Lists(freed + stacks, FramesUnder(m, Tag(root, 4, 0)) + s)
  {
    ListsUnion(freed, FramesUnder(m, Tag(root, 4, 0)), stacks, s);
  }

  predicate StackMissing(m: Mem, root: nat) {
    || StackFrame(m, root, USER_STACK_VPN, true) == None
    || StackFrame(m, root, INT_STACK_VPN, false) == None
    || StackFrame(m, root, SYSCALL_STACK_VPN, false) == None
  }

  /** The frames of the three stacks. */
  function Stacks(m: Mem, root: nat): seq<nat>
    requires !StackMissing(m, root)
  {
    [StackFrame(m, root, SYSCALL_STACK_VPN, false).value,
     StackFrame(m, root, INT_STACK_VPN, false).value,
     StackFrame(m, root, USER_STACK_VPN, true).value]
  }

  function ToSet(s: seq<nat>): set<nat> {
    set f | f in s
  }

  /** All of the process's tables and the frames behind its three stack pages are on the free list. */
  ghost predicate GivenBack(m: Mem, root: nat, free: seq<nat>) {
    && (forall t :: t in m.at && t.root == root ==> m.at[t] in free)
    && (forall p: nat :: p == USER_STACK_VPN || p == INT_STACK_VPN || p == SYSCALL_STACK_VPN ==>
          Translate(m, root, p).Some? && Translate(m, root, p).value.address in free)
  }

  lemma TornGivesBack(m: Mem, root: nat, freed: seq<nat>)
    requires Tree(m) && !StackMissing(m, root)
    requires Lists(freed, FramesUnder(m, Tag(root, 4, 0)) + ToSet(Stacks(m, root)))
    ensures GivenBack(m, root, Torn(m, root, freed).free)
  {
    var s := Stacks(m, root);
    assert s[0] in ToSet(s) && s[1] in ToSet(s) && s[2] in ToSet(s);
    forall t | t in m.at && t.root == root ensures m.at[t] in freed {
      TableAt(m, t);
      UnderRoot(t);
      assert m.at[t] in FramesUnder(m, Tag(root, 4, 0));
    }
  }

  /** The first half of vmm_user_pagetable_free. */
  method FreeStacks(v: Manager, root: nat) returns (panicked: bool)
    requires MemOk(v.m) && IsRoot(v.m, root)
    modifies v
    ensures panicked <==> StackMissing(old(v.m), root)
    ensures !panicked ==>
              v.m == PushAll(old(v.m), Stacks(old(v.m), root)).(owner := old(v.m).owner - ToSet(Stacks(old(v.m), root)))
  {
    hide MemOk, Tree, FramesOk, Translate, PushAll, Returned, Prefix;
    ghost var m0 := v.m;
    MemOkParts(m0);
    FrameNotZero(m0, root, USER_STACK_VPN);
    FrameNotZero(m0, root, INT_STACK_VPN);
    FrameNotZero(m0, root, SYSCALL_STACK_VPN);
    var us := v.WalkAddr(root, USER_STACK_VPN * PAGE_SIZE, true);
    if us == None {
      return true;
    }
    OwnedFrame(m0, root, USER_STACK_VPN);
    ReturnDataKeeps(v.m, us.value);
    ReturnData(v, us.value);
    var is_ := v.WalkAddr(root, INT_STACK_VPN * PAGE_SIZE, false);
    if is_ == None {
      return true;
    }
    OwnedFrame(m0, root, INT_STACK_VPN);
    ReturnDataKeeps(v.m, is_.value);
    ReturnData(v, is_.value);
    var ss := v.WalkAddr(root, SYSCALL_STACK_VPN * PAGE_SIZE, false);
    if ss == None {
      return true;
    }
    ReturnData(v, ss.value);
    ThreeReturned(m0, us.value, is_.value, ss.value);
    assert ToSet([ss.value, is_.value, us.value]) == {us.value, is_.value, ss.value};
    return false;
  }

  /** vmm_user_pagetable_free: gives back the three stacks and every table of the process, each
      exactly once, no table of the kernel, and panics exactly when a stack is missing. */
  method UserPagetableFree(v: Manager, root: nat) returns (panicked: bool, ghost freed: seq<nat>)
    requires MemOk(v.m) && IsRoot(v.m, root)
    modifies v
    ensures panicked <==> StackMissing(old(v.m), root)
    ensures !panicked ==>
              && MemOk(v.m) && v.m == Torn(old(v.m), root, freed)
              && Lists(freed, FramesUnder(old(v.m), Tag(root, 4, 0)) + ToSet(Stacks(old(v.m), root)))
              && GivenBack(old(v.m), root, v.m.free)
              && (forall f :: f in freed ==> f !in old(v.m).kernel) && KernelSame(old(v.m), v.m)
              && (forall r: nat, p: nat :: Translate(v.m, r, p) == if r == root then None
                  else Translate(old(v.m), r, p))
  {
    hide MemOk, Tree, FramesOk, Translate, Torn, TearsDown, Lists, PushAll, FramesUnder, Intact, Prefix;
    hide StackMissing, Stacks, ToSet, GivenBack, KernelSame;
    ghost var m0 := v.m;
    MemOkParts(m0);
    freed := [];
    panicked := FreeStacks(v, root);
    if panicked {
      return;
    }
    ghost var stacks := Stacks(m0, root);
    ghost var m1 := v.m;
    StacksListed(m0, root);
    StacksAreNotTables(m0, root, stacks);
    IntactSameTables(m0, PushAll(m0, stacks), m1, Tag(root, 4, 0));
    TableAt(m0, Tag(root, 4, 0));
    ghost var tables := FreeRecursive(v, m0, Tag(root, 4, 0), root, 0, 3);
    freed := tables + stacks;
    TearsDownAll(m0, root, stacks, ToSet(stacks), tables);
    TornOk(m0, root, freed);
    TornSparesKernel(m0, root, freed);
    TornGivesBack(m0, root, freed);
    TornIs(m0, m1, root, stacks, tables);
    v.m := v.m.(at := map t | t in v.m.at && t.root != root :: v.m.at[t],
                owner := map f | f in v.m.owner && v.m.owner[f].0 != root :: v.m.owner[f]);
  }

  lemma StacksListed(m: Mem, root: nat)
    requires MemOk(m) && !StackMissing(m, root)
    ensures Lists(Stacks(m, root), ToSet(Stacks(m, root)))
    ensures forall f :: f in Stacks(m, root) ==> f in m.owner && m.owner[f].0 == root
    ensures forall f :: f in ToSet(Stacks(m, root)) ==> f in m.owner && m.owner[f].0 == root
  {
    var s := Stacks(m, root);
    StacksDistinct(m, root, s[2], s[1], s[0]);
    assert ToSet(s) == {s[0], s[1], s[2]};
  }

  /** A data frame goes back to the free list and is no longer anybody's. */
  method ReturnData(v: Manager, f: nat)
    modifies v
    ensures v.m == Returned(old(v.m), f)
  {
    v.Kfree(f);
    v.m := v.m.(owner := v.m.owner - {f});
  }

  function Returned(m: Mem, f: nat): Mem {
    Push(m, f).(owner := m.owner - {f})
  }

  lemma ReturnDataTable(m: Mem, f: nat, t: Tag, i: nat)
    requires Tree(m) && f in m.owner && t in m.at && i < ENTRIES
    ensures m.at[t] != f && TableOk(Returned(m, f), t) && EntryOk(Returned(m, f), t, i)
    ensures m.at[t] in m.tables && Returned(m, f).tables[m.at[t]] == m.tables[m.at[t]]
  {
    hide Tree;
    EntryAt(m, t, i);
  }

  lemma ReturnDataKeeps(m: Mem, f: nat)
    requires Tree(m) && FramesOk(m) && f in m.owner
    ensures Tree(Returned(m, f)) && FramesOk(Returned(m, f)) && SameFlat(m, Returned(m, f))
    ensures Returned(m, f).at == m.at && Returned(m, f).owner == m.owner - {f}
  {
    hide TableOk, EntryOk;
    var m' := Returned(m, f);
    forall t, i: nat | t in m'.at && i < ENTRIES
      ensures TableOk(m', t) && m'.at[t] in m'.tables && |m'.tables[m'.at[t]]| == ENTRIES && EntryOk(m', t, i) &&
          m'.tables[m.at[t]] == m.tables[m.at[t]]
    {
      ReturnDataTable(m, f, t, i);
      EntryAt(m, t, i);
      TableSized(m, t);
    }
    forall t | t in m'.at ensures TableOk(m', t) {
      ReturnDataTable(m, f, t, 0);
    }
    forall r: nat, v: nat ensures Translate(m', r, v) == Translate(m, r, v) {
      if OnPath(r, v, 1) in m.at {
        ReturnDataTable(m, f, OnPath(r, v, 1), 0);
      }
    }
    NoDupConcat([f], m.free);
  }

  lemma TableSized(m: Mem, t: Tag)
    requires t in m.at && TableOk(m, t)
    ensures m.at[t] in m.tables && |m.tables[m.at[t]]| == ENTRIES
  {
  }

  lemma IntactSameTables(m0: Mem, a: Mem, b: Mem, top: Tag)
    requires Intact(m0, a, top) && a.tables == b.tables
    ensures Intact(m0, b, top)
  {
  }

  lemma ThreeReturned(m: Mem, a: nat, b: nat, c: nat)
    ensures Returned(Returned(Returned(m, a), b), c) == PushAll(m, [c, b, a]).(owner := m.owner - {a, b, c})
  {
    ThreePushes(m, a, b, c);
    assert m.owner - {a} - {b} - {c} == m.owner - {a, b, c};
  }

  lemma MemOkParts(m: Mem)
    requires MemOk(m)
    ensures Tree(m) && FramesOk(m) && Owned(m)
  {
  }

  lemma ThreePushes(m: Mem, a: nat, b: nat, c: nat)
    ensures Push(Push(Push(m, a), b), c) == PushAll(m, [c, b, a])
  {
    PushAllNothing(m);
    PushAfterPushAll(m, [], a);
    PushAfterPushAll(m, [a], b);
    PushAfterPushAll(m, [b, a], c);
    assert [a] + [] == [a] && [b] + [a] == [b, a] && [c] + [b, a] == [c, b, a];
  }

  lemma TornSparesKernel(m: Mem, root: nat, freed: seq<nat>)
    requires MemOk(m) && TearsDown(m, root, freed)
    ensures forall f :: f in freed ==> f !in m.kernel
    ensures KernelSame(m, Torn(m, root, freed))
  {
    forall f | f in freed ensures f !in m.kernel {
      TornFrame(m, root, freed, f);
    }
  }

  lemma TornIs(m: Mem, m1: Mem, root: nat, stacks: seq<nat>, tables: seq<nat>)
    requires m1 == PushAll(m, stacks).(owner := m1.owner)
    requires m1.owner == m.owner - ToSet(stacks)
    requires forall f :: f in stacks ==> f in m.owner && m.owner[f].0 == root
    ensures var p := PushAll(m1, tables);
            Torn(m, root, tables + stacks) == p.(at := map t | t in p.at && t.root != root :: p.at[t],
                                                 owner := map f | f in p.owner && p.owner[f].0 != root :: p.owner[f])
  {
    PushAllTwice(m, stacks, tables);
  }
}
