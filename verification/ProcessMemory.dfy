/** Building the page table of a new process: a copy of the kernel's root, and three stacks. */
module ProcessMemory {
  import opened Basics
  import opened PageTables
  import opened Vmm
  import opened AddressSpace

  // ----- copying the kernel's tables

  /** `f` is a kernel table of the given level, and so are the tables below it. */
  ghost predicate KernelTree(m: Mem, f: nat, level: nat)
    decreases level
  {
    && f in m.kernel && f in m.tables && |m.tables[f]| == ENTRIES
    && (level > 0 ==> forall i :: 0 <= i < ENTRIES && m.tables[f][i].present && !m.tables[f][i].huge ==>
          KernelTree(m, m.tables[f][i].address, level - 1))
  }

  /** Tables in use, `dst` aside, keep their contents; only frames off the free list were written. */
  ghost predicate CopiedInto(m: Mem, m': Mem, dst: nat) {
    && Shrunk(m, m')
    && m' == m.(free := m'.free, tables := m'.tables)
    && (forall f :: f in m.tables && f !in m.free && f != dst ==> f in m'.tables && m'.tables[f] == m.tables[f])
  }

  ghost predicate KernelNotFree(m: Mem) {
    forall f :: f in m.free ==> f !in m.kernel
  }

  lemma {:induction false} KernelTreeKept(m: Mem, m': Mem, dst: nat, f: nat, level: nat)
    requires KernelTree(m, f, level) && CopiedInto(m, m', dst) && dst !in m.kernel && KernelNotFree(m)
    ensures KernelTree(m', f, level) && m'.tables[f] == m.tables[f]
    decreases level
  {
    if level > 0 {
      forall i | 0 <= i < ENTRIES && m'.tables[f][i].present && !m'.tables[f][i].huge
        ensures KernelTree(m', m'.tables[f][i].address, level - 1)
      {
        KernelTreeKept(m, m', dst, m.tables[f][i].address, level - 1);
      }
    }
  }

  lemma CopiedTwice(a: Mem, b: Mem, c: Mem, dst: nat, inner: nat)
    requires CopiedInto(a, b, dst) && CopiedInto(b, c, inner) && inner in a.free
    ensures CopiedInto(a, c, dst)
  {
    ShrunkTwice(a, b, c);
    assert forall f :: f in b.free ==> f in a.free;
  }

  lemma CopiedPop(a: Mem, b: Mem, dst: nat)
    requires CopiedInto(a, b, dst) && b.free != []
    ensures CopiedInto(a, Pop(b), dst) && b.free[0] in a.free
  {
    assert b.free[0] == a.free[|a.free| - |b.free|];
    assert b.free[1..] == a.free[|a.free| - |b.free| + 1..];
  }

  /** copy_pagetable: `dst` becomes a copy of `src`.  The inner tables it allocates and fills are
      linked from nowhere. */
  method CopyPagetable(v: Manager, dst: nat, src: nat, level: nat) returns (failed: bool)
    requires KernelTree(v.m, src, level) && KernelNotFree(v.m) && NoDup(v.m.free)
    requires dst !in v.m.kernel && dst !in v.m.free
    modifies v
    ensures CopiedInto(old(v.m), v.m, dst)
    ensures dst in v.m.tables && src in old(v.m).tables && v.m.tables[dst] == old(v.m).tables[src]
    ensures failed ==> v.m.free == []
    decreases level
  {
    ghost var m0 := v.m;
    v.m := v.m.(tables := v.m.tables[dst := v.m.tables[src]]);
    if level == 0 {
      return false;
    }
    var i := 0;
    while i < ENTRIES
      invariant 0 <= i <= ENTRIES
      invariant CopiedInto(m0, v.m, dst)
      invariant dst in v.m.tables && v.m.tables[dst] == m0.tables[src]
    {
      hide KernelTree, CopiedInto;
      KernelTreeKept(m0, v.m, dst, src, level);
      KernelTreeTop(v.m, src, level, i);
      var pte := v.m.tables[src][i];
      if pte.present && !pte.huge {
        ghost var cur := v.m;
        CopiedFacts(m0, cur, dst);
        var inner := v.Kalloc();
        if inner == None {
          return true;
        }
        CopiedPop(m0, cur, dst);
        ghost var popped := v.m;
        CopiedFacts(m0, popped, dst);
        PoppedGone(cur);
        KernelTreeKept(m0, popped, dst, src, level);
        KernelTreeTop(popped, src, level, i);
        var bad := CopyPagetable(v, inner.value, pte.address, level - 1);
        CopiedTwice(m0, popped, v.m, dst, inner.value);
        CopiedKeepsDst(popped, v.m, inner.value, dst);
        if bad {
          return true;
        }
      }
      i := i + 1;
    }
    return false;
  }

  lemma KernelTreeTop(m: Mem, f: nat, level: nat, i: nat)
    requires KernelTree(m, f, level) && level > 0 && i < ENTRIES
    ensures f in m.tables && |m.tables[f]| == ENTRIES
    ensures m.tables[f][i].present && !m.tables[f][i].huge ==> KernelTree(m, m.tables[f][i].address, level - 1)
  {
  }

  lemma CopiedFacts(a: Mem, b: Mem, dst: nat)
    requires CopiedInto(a, b, dst) && NoDup(a.free) && KernelNotFree(a) && dst !in a.free
    ensures NoDup(b.free) && KernelNotFree(b) && dst !in b.free && b.kernel == a.kernel
    ensures forall f :: f in b.free ==> f in a.free
  {
  }

  lemma PoppedGone(m: Mem)
    requires m.free != [] && NoDup(m.free)
    ensures m.free[0] !in Pop(m).free
  {
  }

  lemma CopiedKeepsDst(b: Mem, c: Mem, inner: nat, dst: nat)
    requires CopiedInto(b, c, inner) && dst in b.tables && dst !in b.free && dst != inner
    ensures dst in c.tables && c.tables[dst] == b.tables[dst]
  {
  }

  // ----- a new root

  /** The kernel's root has nothing below VA_MAX and no huge entries above it. */
  ghost predicate KernelRootOk(m: Mem, k: nat) {
    && KernelTree(m, k, 3) && m.tables[k] == m.kernelRoot
    && (forall i :: 0 <= i < USER_ENTRIES ==> m.tables[k][i] == ABSENT)
    && (forall i :: USER_ENTRIES <= i < ENTRIES ==> !m.tables[k][i].huge)
  }

  lemma CopyKeepsTree(m: Mem, m': Mem, dst: nat)
    requires Tree(m) && FramesOk(m) && CopiedInto(m, m', dst) && forall t :: t in m.at ==> m.at[t] != dst
    ensures Tree(m') && FramesOk(m') && SameFlat(m, m')
  {
    assert forall f :: f in m'.free ==> f in m.free;
    forall t, i: nat | t in m'.at && i < ENTRIES
      ensures TableOk(m', t) && EntryOk(m', t, i) && m.at[t] in m.tables && m'.tables[m.at[t]] == m.tables[m.at[t]]
    {
      EntryAt(m, t, i);
    }
    forall t | t in m'.at ensures TableOk(m', t) && m'.tables[m.at[t]] == m.tables[m.at[t]] {
      EntryAt(m, t, 0);
    }
  }

  function WithRoot(m: Mem, root: nat): Mem {
    m.(at := m.at[Tag(root, 4, 0) := root])
  }

  lemma NoTreeYet(m: Mem, root: nat, t: Tag)
    requires Tree(m) && Fresh(m, root) && t in m.at
    ensures t.root != root
  {
    TableAt(m, t);
    UnderRoot(t);
    AncestorOccupied(m, t, Tag(t.root, 4, 0));
    TableAt(m, Tag(t.root, 4, 0));
  }

  lemma RootAddedAt(m: Mem, root: nat, t: Tag, i: nat)
    requires Tree(m) && Fresh(m, root) && t in m.at && i < ENTRIES
    ensures t.root != root && TableOk(WithRoot(m, root), t) && EntryOk(WithRoot(m, root), t, i)
  {
    hide Tree;
    NoTreeYet(m, root, t);
    EntryAt(m, t, i);
  }

  /** The table has the kernel's entries above the user range, none in it, and no huge page. */
  ghost predicate CopyOfKernel(m: Mem, table: seq<Pte>) {
    |table| == ENTRIES && forall i :: 0 <= i < ENTRIES ==>
      !table[i].huge && if i < USER_ENTRIES then table[i] == ABSENT else table[i] == KernelEntry(m, i)
  }

  lemma RootEntry(m: Mem, root: nat, i: nat)
    requires Tree(m) && Fresh(m, root) && root in m.tables && |m.tables[root]| == ENTRIES && i < ENTRIES
    requires CopyOfKernel(m, m.tables[root])
    ensures EntryOk(WithRoot(m, root), Tag(root, 4, 0), i)
  {
    hide Tree;
    var c := Child(Tag(root, 4, 0), i);
    if c in m.at {
      NoTreeYet(m, root, c);
    }
  }

  lemma RootAddedFrames(m: Mem, root: nat)
    requires FramesOk(m) && Fresh(m, root)
    ensures FramesOk(WithRoot(m, root))
  {
  }

  lemma RootAddedTree(m: Mem, root: nat)
    requires Tree(m) && FramesOk(m) && Fresh(m, root) && root in m.tables && |m.tables[root]| == ENTRIES
    requires CopyOfKernel(m, m.tables[root])
    ensures Tree(WithRoot(m, root)) && FramesOk(WithRoot(m, root))
  {
    hide Prefix, EntryOk, FramesOk;
    RootAddedFrames(m, root);
    var m' := WithRoot(m, root);
    var top := Tag(root, 4, 0);
    forall t | t in m'.at ensures TableOk(m', t) {
      if t != top {
        RootAddedAt(m, root, t, 0);
      }
    }
    forall t, i: nat | t in m'.at && i < ENTRIES ensures EntryOk(m', t, i) {
      if t != top {
        RootAddedAt(m, root, t, i);
      } else {
        RootEntry(m, root, i);
      }
    }
  }

  /** A fresh frame filled from the kernel's root is the root of an empty tree. */
  lemma RootAdded(m: Mem, root: nat)
    requires Tree(m) && FramesOk(m) && Fresh(m, root) && root in m.tables && |m.tables[root]| == ENTRIES
    requires CopyOfKernel(m, m.tables[root])
    ensures Tree(WithRoot(m, root)) && FramesOk(WithRoot(m, root)) && SameFlat(m, WithRoot(m, root))
    ensures forall v: nat :: Translate(WithRoot(m, root), root, v) == None
  {
    hide Prefix, Tree, FramesOk, Fresh;
    RootAddedTree(m, root);
    forall t | t in m.at ensures t.root != root {
      NoTreeYet(m, root, t);
    }
  }

  // ----- stacks

  lemma PushAt(m: Mem, f: nat, t: Tag, i: nat)
    requires Tree(m) && Fresh(m, f) && t in m.at && i < ENTRIES
    ensures TableOk(Push(m, f), t) && EntryOk(Push(m, f), t, i)
    ensures m.at[t] in m.tables && m.at[t] in Push(m, f).tables && Push(m, f).tables[m.at[t]] == m.tables[m.at[t]]
  {
    hide Tree;
    EntryAt(m, t, i);
  }

  lemma PushTree(m: Mem, f: nat)
    requires Tree(m) && Fresh(m, f)
    ensures Tree(Push(m, f)) && SameFlat(m, Push(m, f))
  {
    hide TableOk, EntryOk, Fresh;
    var m' := Push(m, f);
    forall t | t in m'.at
      ensures TableOk(m', t) && m.at[t] in m.tables && m.at[t] in m'.tables && m'.tables[m.at[t]] == m.tables[m.at[t]]
    {
      PushAt(m, f, t, 0);
    }
    forall t, i: nat | t in m'.at && i < ENTRIES
      ensures m'.at[t] in m'.tables && |m'.tables[m'.at[t]]| == ENTRIES && EntryOk(m', t, i)
    {
      PushAt(m, f, t, i);
      TableThere(m', t);
    }
  }

  lemma PushFrames(m: Mem, f: nat)
    requires FramesOk(m) && Fresh(m, f)
    ensures FramesOk(Push(m, f)) && KernelSame(m, Push(m, f))
  {
    NoDupConcat([f], m.free);
  }

  lemma FreshPush(m: Mem, f: nat)
    requires MemOk(m) && Fresh(m, f)
    ensures MemOk(Push(m, f)) && SameFlat(m, Push(m, f)) && KernelSame(m, Push(m, f))
  {
    hide Tree, FramesOk, KernelSame, Fresh, SameFlat;
    PushTree(m, f);
    PushFrames(m, f);
    OwnedBySameFlat(m, Push(m, f));
  }

  lemma MemOkPop(m: Mem)
    requires MemOk(m) && m.free != []
    ensures MemOk(Pop(m)) && SameFlat(m, Pop(m)) && Fresh(Pop(m), m.free[0])
  {
    PopKeeps(m);
    OwnedBySameFlat(m, Pop(m));
  }

  lemma FreshAfterPop(m: Mem, f: nat)
    requires Fresh(m, f) && m.free != []
    ensures Fresh(Pop(m), f)
  {
  }

  lemma FreshSameRest(m: Mem, m': Mem, f: nat)
    requires Fresh(m, f) && SameRest(m, m')
    ensures Fresh(m', f)
  {
    assert forall g :: g in m'.free ==> g in m.free;
  }

  /** The contents kalloc leaves in a page. */
  function JunkPage(): seq<int> {
    seq(PAGE_SIZE, i => 2)
  }

  function Adopted(m: Mem, f: nat, root: nat, vpn: nat): Mem {
    m.(bytes := m.bytes[f := JunkPage()], owner := m.owner[f := (root, vpn)])
  }

  lemma AdoptKeeps(m: Mem, m': Mem, root: nat, vpn: nat, f: nat, perm: Perm)
    requires Owned(m) && Tree(m') && FramesOk(m') && m'.owner == m.owner && Fresh(m', f)
    requires Mapped(m, m', root, vpn, [f], perm)
    ensures MemOk(Adopted(m', f, root, vpn)) && SameFlat(m', Adopted(m', f, root, vpn))
  {
    var n := Adopted(m', f, root, vpn);
    forall t, i: nat | t in n.at && i < ENTRIES ensures TableOk(n, t) && EntryOk(n, t, i) {
      EntryAt(m', t, i);
    }
    forall t | t in n.at ensures TableOk(n, t) {
      EntryAt(m', t, 0);
    }
    AdoptOwned(m, m', n, root, vpn, f, perm);
  }

  lemma AdoptOwned(m: Mem, m': Mem, n: Mem, root: nat, vpn: nat, f: nat, perm: Perm)
    requires Owned(m) && Mapped(m, m', root, vpn, [f], perm) && SameFlat(m', n)
    requires f !in m.owner && n.owner == m.owner[f := (root, vpn)]
    ensures Owned(n)
  {
    hide Translate;
    forall r: nat, v: nat | Translate(n, r, v).Some?
      ensures Translate(n, r, v).value.address in n.owner && n.owner[Translate(n, r, v).value.address] == (r, v)
    {
      assert Translate(n, r, v) == Translate(m', r, v);
      assert !(r == root && v == vpn) ==> Translate(n, r, v) == Translate(m, r, v);
    }
  }

  /** One of the three calls of vmm_map_pages in vmm_user_pagetable_new, whose result the source
      ignores: the page is mapped, or memory has run out. */
  method MapStack(v: Manager, root: nat, vpn: nat, frame: nat, perm: Perm) returns (mapped: bool)
    requires MemOk(v.m) && IsRoot(v.m, root) && Fresh(v.m, frame)
    requires UserPage(vpn) && Translate(v.m, root, vpn) == None
    modifies v
    ensures MemOk(v.m) && Shrunk(old(v.m), v.m) && KernelSame(old(v.m), v.m) && IsRoot(v.m, root)
    ensures Mapped(old(v.m), v.m, root, vpn, if mapped then [frame] else [], perm)
    ensures !mapped ==> v.m.free == []
    ensures forall g :: g != frame && Fresh(old(v.m), g) ==> Fresh(v.m, g)
  {
    hide MemOk, Tree, FramesOk, Translate, Fresh, Mapped, SameRest, Prefix, Adopted, SameFlat, Owned;
    ghost var m0 := v.m;
    AddressSpace.MemOkParts(m0);
    var r, done := v.MapPages(root, vpn * PAGE_SIZE, PAGE_SIZE, frame * PAGE_SIZE, perm);
    ghost var m1 := v.m;
    forall g | Fresh(m0, g) ensures Fresh(m1, g) {
      FreshSameRest(m0, m1, g);
    }
    SameRestParts(m0, m1, root);
    mapped := r.Ok?;
    if mapped {
      assert seq(1, i => frame + i) == [frame];
      AdoptKeeps(m0, m1, root, vpn, frame, perm);
      v.m := v.m.(bytes := v.m.bytes[frame := JunkPage()], owner := v.m.owner[frame := (root, vpn)]);
      AdoptedIs(m1, frame, root, vpn);
      MappedWalk(m0, m1, v.m, root, vpn, [frame], perm);
      forall g | g != frame && Fresh(m1, g) ensures Fresh(v.m, g) {
        FreshAdopted(m1, frame, root, vpn, g);
      }
    } else {
      assert seq(0, i => frame + i) == [];
      MappedEmpty(m0, m1, root, vpn, perm);
      OwnedBySameFlat(m0, m1);
      MemOkFromParts(m1);
    }
  }

  lemma AdoptedIs(m: Mem, f: nat, root: nat, vpn: nat)
    ensures Adopted(m, f, root, vpn) == m.(bytes := m.bytes[f := JunkPage()], owner := m.owner[f := (root, vpn)])
  {
  }

  lemma FreshAdopted(m: Mem, f: nat, root: nat, vpn: nat, g: nat)
    requires Fresh(m, g) && g != f
    ensures Fresh(Adopted(m, f, root, vpn), g)
  {
  }

  lemma SameRestParts(m: Mem, m': Mem, root: nat)
    requires SameRest(m, m') && IsRoot(m, root)
    ensures Tree(m') && FramesOk(m') && Shrunk(m, m') && m'.owner == m.owner && KernelSame(m, m') && IsRoot(m', root)
  {
  }

  lemma MappedEmpty(m: Mem, m': Mem, root: nat, vpn: nat, perm: Perm)
    requires Mapped(m, m', root, vpn, [], perm)
    ensures SameFlat(m, m')
  {
  }

  lemma MemOkFromParts(m: Mem)
    requires Tree(m) && FramesOk(m) && Owned(m)
    ensures MemOk(m)
  {
  }

  // ----- vmm_user_pagetable_new

  predicate StackPage(vpn: nat) {
    vpn == USER_STACK_VPN || vpn == INT_STACK_VPN || vpn == SYSCALL_STACK_VPN
  }

  function StackPerm(vpn: nat): Perm {
    if vpn == USER_STACK_VPN then USER_STACK_PERM else KERNEL_STACK_PERM
  }

  /** The new root maps its stack pages, each to a frame that was free, and nothing else; a stack
      is missing only if memory ran out. */
  ghost predicate NewSpace(m: Mem, m': Mem, root: nat) {
    && IsRoot(m', root) && root in m.free
    && (forall p: nat :: !StackPage(p) ==> Translate(m', root, p) == None)
    && (forall p: nat :: StackPage(p) ==>
          || (Translate(m', root, p) == None && m'.free == [])
          || (Translate(m', root, p).Some? && Translate(m', root, p).value.address in m.free
              && Translate(m', root, p).value == Leaf(StackPerm(p), Translate(m', root, p).value.address)))
  }

  ghost predicate OthersSame(m: Mem, m': Mem, root: Option<nat>) {
    forall r: nat, p: nat :: Some(r) != root ==> Translate(m', r, p) == Translate(m, r, p)
  }

  /** The three mappings together. */
  lemma ThreeStacks(m: Mem, m0: Mem, m1: Mem, m2: Mem, m3: Mem, root: nat, us: nat, is_: nat, ss: nat,
                    b1: bool, b2: bool, b3: bool)
    requires OthersSame(m, m0, Some(root)) && forall p: nat :: Translate(m0, root, p) == None
    requires Mapped(m0, m1, root, USER_STACK_VPN, if b1 then [us] else [], USER_STACK_PERM)
    requires Mapped(m1, m2, root, INT_STACK_VPN, if b2 then [is_] else [], KERNEL_STACK_PERM)
    requires Mapped(m2, m3, root, SYSCALL_STACK_VPN, if b3 then [ss] else [], KERNEL_STACK_PERM)
    requires IsRoot(m3, root) && root in m.free && us in m.free && is_ in m.free && ss in m.free
    requires !(b1 && b2 && b3) ==> m3.free == []
    ensures NewSpace(m, m3, root) && OthersSame(m, m3, Some(root))
  {
    hide Translate;
    forall p: nat ensures StackPage(p) ==>
          || (Translate(m3, root, p) == None && m3.free == [])
          || (Translate(m3, root, p).Some? && Translate(m3, root, p).value.address in m.free
              && Translate(m3, root, p).value == Leaf(StackPerm(p), Translate(m3, root, p).value.address))
    ensures !StackPage(p) ==> Translate(m3, root, p) == None
    {
      assert Translate(m0, root, p) == None;
      assert Translate(m1, root, p) == if b1 && p == USER_STACK_VPN then Some(Leaf(USER_STACK_PERM, us)) else None;
      assert Translate(m2, root, p) == if b2 &&
          p == INT_STACK_VPN then Some(Leaf(KERNEL_STACK_PERM, is_)) else Translate(m1, root, p);
    }
    forall r: nat, p: nat | r != root ensures Translate(m3, r, p) == Translate(m, r, p) {
      assert Translate(m1, r, p) == Translate(m0, r, p);
      assert Translate(m2, r, p) == Translate(m1, r, p);
    }
  }

  /** A frame taken from the free list of memory that still looks like `m`. */
  lemma TakeFrame(m: Mem, cur: Mem)
    requires MemOk(cur) && Shrunk(m, cur) && SameFlat(m, cur) && cur.free != []
    ensures MemOk(Pop(cur)) && Shrunk(m, Pop(cur)) && SameFlat(m, Pop(cur))
    ensures Fresh(Pop(cur), cur.free[0]) && cur.free[0] in m.free
    ensures forall g :: Fresh(cur, g) ==> Fresh(Pop(cur), g) && g != cur.free[0]
  {
    MemOkPop(cur);
    SameFlatTwice(m, cur, Pop(cur));
    ShrunkTwice(m, cur, Pop(cur));
    assert cur.free[0] == m.free[|m.free| - |cur.free|];
    forall g | Fresh(cur, g) ensures Fresh(Pop(cur), g) && g != cur.free[0] {
      FreshAfterPop(cur, g);
      assert cur.free[0] in cur.free;
    }
  }

  /** The new root is a copy of the kernel's, in a frame of its own. */
  lemma KernelIsCopy(m: Mem, m': Mem, k: nat)
    requires KernelRootOk(m, k) && m'.kernelRoot == m.kernelRoot
    ensures k in m.tables && |m.tables[k]| == ENTRIES && CopyOfKernel(m', m.tables[k])
  {
    hide KernelTree;
    KernelTreeTop(m, k, 3, 0);
  }

  lemma RootCopied(m: Mem, popped: Mem, m': Mem, k: nat, root: nat)
    requires MemOk(popped) && KernelRootOk(popped, k) && Fresh(popped, root) && SameFlat(m, popped) && Shrunk(m, popped)
    requires CopiedInto(popped, m', root) && root in m'.tables && m'.tables[root] == popped.tables[k]
    ensures MemOk(m') && SameFlat(m, m') && Shrunk(m, m') && Fresh(m', root)
    ensures |m'.tables[root]| == ENTRIES
    ensures CopyOfKernel(m', m'.tables[root])
  {
    hide Tree, Owned, Translate, KernelTree, CopyOfKernel, NoDup;
    KernelIsCopy(popped, m', k);
    CopyKeepsTree(popped, m', root);
    OwnedBySameFlat(popped, m');
    SameFlatTwice(m, popped, m');
    ShrunkTwice(m, popped, m');
    assert forall f :: f in m'.free ==> f in popped.free;
  }

  /** The three kalloc calls; on failure what was taken is given back. */
  method TakeThree(v: Manager, ghost m: Mem, ghost root: nat) returns (frames: Option<(nat, nat, nat)>)
    requires MemOk(v.m) && Shrunk(m, v.m) && SameFlat(m, v.m) && Fresh(v.m, root)
    modifies v
    ensures MemOk(v.m) && SameFlat(m, v.m) && KernelSame(old(v.m), v.m)
    ensures v.m == old(v.m).(free := v.m.free, tables := v.m.tables, bytes := v.m.bytes)
    ensures frames.Some? ==>
              && v.m.tables == old(v.m).tables && Shrunk(m, v.m) && Fresh(v.m, root)
              && var (a, b, c) := frames.value;
              && a in m.free && b in m.free && c in m.free
              && a != b && a != c && b != c && root != a && root != b && root != c
              && Fresh(v.m, a) && Fresh(v.m, b) && Fresh(v.m, c)
    ensures frames.Some? <==> |old(v.m).free| >= 3
    ensures frames == None ==> |v.m.free| == |old(v.m).free|
  {
    hide MemOk, Shrunk, SameFlat, Fresh, Pop;
    ghost var m0 := v.m;
    var us := v.Kalloc();
    if us == None {
      return None;
    }
    TakeFrame(m, m0);
    PopOnlyFree(m0);
    ghost var m1 := v.m;
    var is_ := v.Kalloc();
    if is_ == None {
      FreshPush(v.m, us.value);
      SameFlatTwice(m, v.m, Push(v.m, us.value));
      v.Kfree(us.value);
      return None;
    }
    TakeFrame(m, m1);
    PopOnlyFree(m1);
    ghost var m2 := v.m;
    var ss := v.Kalloc();
    if ss == None {
      FreshPush(v.m, us.value);
      SameFlatTwice(m, v.m, Push(v.m, us.value));
      FreshAfterPush(v.m, us.value, is_.value);
      v.Kfree(us.value);
      FreshPush(v.m, is_.value);
      SameFlatTwice(m, v.m, Push(v.m, is_.value));
      v.Kfree(is_.value);
      return None;
    }
    TakeFrame(m, m2);
    PopOnlyFree(m2);
    return Some((us.value, is_.value, ss.value));
  }

  lemma FreshAfterPush(m: Mem, f: nat, g: nat)
    requires Fresh(m, g) && f != g
    ensures Fresh(Push(m, f), g)
  {
  }

  /** vmm_user_pagetable_new. */
  method UserPagetableNew(v: Manager, k: nat) returns (root: Option<nat>)
    requires MemOk(v.m) && KernelRootOk(v.m, k)
    modifies v
    ensures MemOk(v.m) && KernelSame(old(v.m), v.m)
    ensures OthersSame(old(v.m), v.m, root)
    ensures root.Some? ==> NewSpace(old(v.m), v.m, root.value)
    ensures root.Some? ==> SharesKernel(v.m, root.value, k)
    ensures KernelRootOk(v.m, k) && v.m.tables[k] == old(v.m).tables[k]
    ensures root == None ==> |v.m.free| <= 2
  {
    hide MemOk, Tree, FramesOk, Shrunk, SameFlat, Fresh, Pop, Translate, KernelRootOk, KernelTree, CopiedInto;
    hide OthersSame, NewSpace, WithRoot, Mapped, NoDup, Prefix, IsRoot, KernelSame, KernelNotFree;
    ghost var m := v.m;
    SelfFacts(m);
    SameFlatOthers(m, m, None);
    var frame := v.Kalloc();
    if frame == None {
      KernelRootSame(m, m, k);
      return None;
    }
    var r := frame.value;
    TakeFrame(m, m);
    PopOnlyFree(m);
    v.m := v.m.(tables := v.m.tables[r := ZeroTable()]);
    ghost var zeroed := v.m;
    ZeroedKeeps(m, Pop(m), r, k);
    KernelSameBut(m, zeroed, r);
    var bad := CopyPagetable(v, r, k, 3);
    RootCopied(m, zeroed, v.m, k, r);
    CopiedKernel(zeroed, v.m, r);
    KernelSameTwice(m, zeroed, v.m);
    SameFlatOthers(m, v.m, None);
    if bad {
      KernelRootSame(m, v.m, k);
      return None;
    }
    ghost var copied := v.m;
    var frames := TakeThree(v, m, r);
    KernelSameTwice(m, copied, v.m);
    SameFlatOthers(m, v.m, None);
    if frames == None {
      KernelRootSame(m, v.m, k);
      return None;
    }
    var (us, is_, ss) := frames.value;
    ghost var taken := v.m;
    NewRootReady(m, taken, r, us, is_, ss);
    WithRootIs(taken, r);
    v.m := v.m.(at := v.m.at[Tag(r, 4, 0) := r]);
    ghost var m0 := v.m;
    KernelSameTables(m, taken, m0);
    var b1 := MapStack(v, r, USER_STACK_VPN, us, USER_STACK_PERM);
    ghost var m1 := v.m;
    StillNone(m0, m1, r, USER_STACK_VPN, INT_STACK_VPN, if b1 then [us] else [], USER_STACK_PERM);
    StillNone(m0, m1, r, USER_STACK_VPN, SYSCALL_STACK_VPN, if b1 then [us] else [], USER_STACK_PERM);
    var b2 := MapStack(v, r, INT_STACK_VPN, is_, KERNEL_STACK_PERM);
    ghost var m2 := v.m;
    StillNone(m1, m2, r, INT_STACK_VPN, SYSCALL_STACK_VPN, if b2 then [is_] else [], KERNEL_STACK_PERM);
    var b3 := MapStack(v, r, SYSCALL_STACK_VPN, ss, KERNEL_STACK_PERM);
    NothingLeft(m1, m2, v.m);
    KernelSameTwice(m, m0, m1);
    KernelSameTwice(m, m1, m2);
    KernelSameTwice(m, m2, v.m);
    ThreeStacks(m, m0, m1, m2, v.m, r, us, is_, ss, b1, b2, b3);
    KernelRootSame(m, v.m, k);
    MemOkParts(v.m);
    EveryRootSharesKernel(v.m, r, k);
    return Some(r);
  }

  lemma SelfFacts(m: Mem)
    ensures Shrunk(m, m) && SameFlat(m, m) && KernelSame(m, m)
  {
  }

  lemma KernelSameTables(a: Mem, b: Mem, c: Mem)
    requires KernelSame(a, b) && c.tables == b.tables && c.kernel == b.kernel && c.kernelRoot == b.kernelRoot
    ensures KernelSame(a, c)
  {
  }

  lemma SameFlatOthers(m: Mem, m': Mem, root: Option<nat>)
    ensures SameFlat(m, m') ==> OthersSame(m, m', root)
  {
  }

  lemma ZeroedKeeps(m: Mem, popped: Mem, r: nat, k: nat)
    requires MemOk(m) && KernelRootOk(m, k) && MemOk(popped) && m.free != [] && popped == Pop(m) && r == m.free[0]
    requires Fresh(popped, r) && Shrunk(m, popped) && SameFlat(m, popped)
    ensures var z := popped.(tables := popped.tables[r := ZeroTable()]);
            && MemOk(z) && Shrunk(m, z) && SameFlat(m, z) && Fresh(z, r) && KernelRootOk(z, k)
            && KernelTree(z, k, 3) && KernelNotFree(z) && NoDup(z.free) && r !in z.kernel && r !in z.free
  {
    hide KernelTree, Translate;
    var z := popped.(tables := popped.tables[r := ZeroTable()]);
    KernelRootFrame(m, k);
    assert CopiedInto(m, z, r) by {
      assert forall f :: f in m.tables && f !in m.free && f != r ==> f in z.tables && z.tables[f] == m.tables[f];
    }
    assert r !in m.kernel by { assert r in m.free; }
    KernelTreeKept(m, z, r, k, 3);
    CopyKeepsTree(popped, z, r);
    OwnedBySameFlat(popped, z);
    SameFlatTwice(m, popped, z);
  }

  lemma KernelRootFrame(m: Mem, k: nat)
    requires KernelRootOk(m, k)
    ensures k in m.tables && |m.tables[k]| == ENTRIES
  {
  }

  lemma CopiedKernel(m: Mem, m': Mem, dst: nat)
    requires CopiedInto(m, m', dst) && dst !in m.kernel && KernelNotFree(m)
    ensures KernelSame(m, m')
  {
  }

  lemma KernelSameTwice(a: Mem, b: Mem, c: Mem)
    requires KernelSame(a, b) && KernelSame(b, c)
    ensures KernelSame(a, c)
  {
  }

  /** Only the table of one frame outside the kernel changed. */
  lemma KernelSameBut(a: Mem, b: Mem, r: nat)
    requires b.kernel == a.kernel && b.kernelRoot == a.kernelRoot && r !in a.kernel
    requires forall f :: f in a.tables && f != r ==> f in b.tables && b.tables[f] == a.tables[f]
    ensures KernelSame(a, b)
  {
  }

  /** Above the user range `root` has, entry for entry, what the kernel's root `k` has: whoever runs on
      `root` has the kernel mapped. */
  ghost predicate SharesKernel(m: Mem, root: nat, k: nat) {
    && root in m.tables && |m.tables[root]| == ENTRIES && k in m.tables && |m.tables[k]| == ENTRIES
    && forall i :: USER_ENTRIES <= i < ENTRIES ==> m.tables[root][i] == m.tables[k][i]
  }

  /** That holds of every root, whatever was mapped, allocated or torn down since. */
  lemma EveryRootSharesKernel(m: Mem, root: nat, k: nat)
    requires Tree(m) && IsRoot(m, root) && KernelRootOk(m, k)
    ensures SharesKernel(m, root, k)
  {
    hide Tree, KernelTree;
    KernelTreeTop(m, k, 3, 0);
    forall i | USER_ENTRIES <= i < ENTRIES ensures root in m.tables && |m.tables[root]| == ENTRIES
      && m.tables[root][i] == m.tables[k][i]
    {
      KernelHalf(m, root, i);
    }
    KernelHalf(m, root, USER_ENTRIES);
  }

  lemma KernelRootSame(m: Mem, m': Mem, k: nat)
    requires KernelRootOk(m, k) && KernelSame(m, m')
    ensures KernelRootOk(m', k) && m'.tables[k] == m.tables[k]
  {
    KernelRootKept(m, m', k);
  }

  /** What vmm_user_pagetable_new asks of the kernel's tables still holds afterwards. */
  lemma KernelRootKept(m: Mem, m': Mem, k: nat)
    requires KernelRootOk(m, k) && KernelSame(m, m')
    ensures KernelRootOk(m', k)
  {
    KernelTreeSame(m, m', k, 3);
  }

  lemma {:induction false} KernelTreeSame(m: Mem, m': Mem, f: nat, level: nat)
    requires KernelTree(m, f, level) && KernelSame(m, m')
    ensures KernelTree(m', f, level)
    decreases level
  {
    if level > 0 {
      forall i | 0 <= i < ENTRIES && m'.tables[f][i].present && !m'.tables[f][i].huge
        ensures KernelTree(m', m'.tables[f][i].address, level - 1)
      {
        KernelTreeSame(m, m', m.tables[f][i].address, level - 1);
      }
    }
  }

  lemma NewRootReady(m: Mem, taken: Mem, r: nat, a: nat, b: nat, c: nat)
    requires MemOk(taken) && SameFlat(m, taken) && Fresh(taken, r) && r in taken.tables && |taken.tables[r]| == ENTRIES
    requires CopyOfKernel(taken, taken.tables[r])
    requires Fresh(taken, a) && Fresh(taken, b) && Fresh(taken, c) && r != a && r != b && r != c
    ensures var n := WithRoot(taken, r);
            && MemOk(n) && OthersSame(m, n, Some(r)) && IsRoot(n, r) && (forall p: nat :: Translate(n, r, p) == None)
            && Fresh(n, a) && Fresh(n, b) && Fresh(n, c)
  {
    hide Tree, FramesOk, Translate;
    RootAdded(taken, r);
    OwnedBySameFlat(taken, WithRoot(taken, r));
    SameFlatTwice(m, taken, WithRoot(taken, r));
    SameFlatOthers(m, WithRoot(taken, r), Some(r));
  }

  lemma WithRootIs(m: Mem, r: nat)
    ensures WithRoot(m, r) == m.(at := m.at[Tag(r, 4, 0) := r])
  {
  }

  lemma StillNone(m: Mem, m': Mem, root: nat, vpn: nat, p: nat, frames: seq<nat>, perm: Perm)
    requires Mapped(m, m', root, vpn, frames, perm) && |frames| <= 1 && p != vpn && Translate(m, root, p) == None
    ensures Translate(m', root, p) == None
  {
  }

  lemma NothingLeft(a: Mem, b: Mem, c: Mem)
    requires Shrunk(a, b) && Shrunk(b, c)
    ensures a.free == [] ==> b.free == [] && c.free == []
    ensures b.free == [] ==> c.free == []
  {
  }
}
