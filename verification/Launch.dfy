/** proc_exec as a whole on the address space, and the heap that grows above it. */
module Launch {
  import opened Basics
  import opened PageTables
  import opened Vmm
  import opened AddressSpace
  import opened ProcessMemory
  import opened Exec
  import opened UserStack
  import opened Words

  const HEAP_PERM: Perm := Perm(true, false, true)

  // ----- the heap

  /** Between the segments and the user stack, exactly the pages below the break are mapped. */
  ghost predicate HeapOk(m: Mem, root: nat, initial: nat, brk: nat) {
    && initial % PAGE_SIZE == 0 && initial <= brk
    && forall p: nat :: initial <= p * PAGE_SIZE < USER_STACK_BOTTOM ==>
                          && (Translate(m, root, p).Some? <==> p * PAGE_SIZE < brk)
                          && (Translate(m, root, p).Some? ==> HeapPage(Translate(m, root, p).value))
  }

  /** The user may read and write it, not execute it. */
  predicate HeapPage(e: Pte) {
    e.present && e.us && e.rw && e.xd
  }

  /** Pages `first` on, `k` of them, are heap pages. */
  ghost predicate HeapPages(m: Mem, root: nat, first: nat, k: nat) {
    forall p: nat :: first <= p < first + k ==>
                       UserPage(p) && Translate(m, root, p).Some? && HeapPage(Translate(m, root, p).value)
  }

  /** Some page of `[lo, hi)` cannot be mapped: it is outside the user range, or mapped already. */
  ghost predicate Blocked(m: Mem, root: nat, lo: nat, hi: nat) {
    exists p: nat :: lo <= p * PAGE_SIZE < hi && (!UserPage(p) || Translate(m, root, p).Some?)
  }

  lemma NothingAdded(m: Mem, root: nat, first: nat)
    ensures PagesAdded(m, m, root, first, 0) && HeapPages(m, root, first, 0)
  {
  }

  lemma HeapPageAdded(m: Mem, cur: Mem, next: Mem, root: nat, first: nat, k: nat, frame: nat)
    requires PagesAdded(m, cur, root, first, k) && HeapPages(cur, root, first, k)
    requires PagesAdded(cur, next, root, first + k, 1) && UserPage(first + k)
    requires Translate(next, root, first + k) == Some(Leaf(HEAP_PERM, frame))
    ensures PagesAdded(m, next, root, first, k + 1) && HeapPages(next, root, first, k + 1)
  {
    hide Translate;
    forall r: nat, p: nat | !(r == root && first <= p < first + k + 1)
      ensures Translate(next, r, p) == Translate(m, r, p) {
      assert Translate(cur, r, p) == Translate(m, r, p);
    }
    forall p: nat | first <= p < first + k + 1
      ensures UserPage(p) && Translate(next, root, p).Some? && HeapPage(Translate(next, root, p).value)
      ensures Translate(m, root, p) == None
    {
      if p < first + k {
        assert Translate(next, root, p) == Translate(cur, root, p);
      } else {
        assert Translate(cur, root, p) == Translate(m, root, p);
      }
    }
  }

  lemma NotBlocked(m: Mem, m': Mem, root: nat, first: nat, k: nat, lo: nat, hi: nat)
    requires PagesAdded(m, m', root, first, k) && HeapPages(m', root, first, k)
    requires first * PAGE_SIZE == lo && hi <= lo + k * PAGE_SIZE
    ensures !Blocked(m, root, lo, hi)
  {
    hide Translate;
  }

  lemma BlockedAt(m: Mem, cur: Mem, root: nat, first: nat, k: nat, lo: nat, hi: nat)
    requires PagesAdded(m, cur, root, first, k) && first * PAGE_SIZE == lo && lo + k * PAGE_SIZE < hi
    requires !UserPage(first + k) || Translate(cur, root, first + k).Some?
    ensures Blocked(m, root, lo, hi)
  {
    hide Translate;
    assert Translate(cur, root, first + k) == Translate(m, root, first + k);
    assert lo <= (first + k) * PAGE_SIZE < hi;
  }

  /** Above the heap, up to the user stack, nothing is in the way. */
  lemma HeapNotBlocked(m: Mem, root: nat, initial: nat, brk: nat, newBrk: nat)
    requires HeapOk(m, root, initial, brk) && VA_MIN <= initial && newBrk <= USER_STACK_BOTTOM
    ensures !Blocked(m, root, RoundUp(brk), newBrk)
  {
    hide Translate;
    RoundUpFacts(brk);
  }

  /** The heap is in order again when the pages up to the new break were added. */
  lemma HeapAfter(m: Mem, m': Mem, root: nat, initial: nat, brk: nat, newBrk: nat, first: nat, k: nat)
    requires HeapOk(m, root, initial, brk) && brk <= newBrk
    requires PagesAdded(m, m', root, first, k) && HeapPages(m', root, first, k)
    requires first * PAGE_SIZE == RoundUp(brk) && (first + k) * PAGE_SIZE == RoundUp(newBrk)
    ensures HeapOk(m', root, initial, newBrk)
  {
    hide Translate;
    RoundUpFacts(brk);
    RoundUpFacts(newBrk);
    forall p: nat | initial <= p * PAGE_SIZE < USER_STACK_BOTTOM
      ensures Translate(m', root, p).Some? <==> p * PAGE_SIZE < newBrk
      ensures Translate(m', root, p).Some? ==> HeapPage(Translate(m', root, p).value)
    {
      if !(first <= p < first + k) {
        assert Translate(m', root, p) == Translate(m, root, p);
      }
    }
  }

  lemma StacksKept(m: Mem, m': Mem, root: nat)
    requires Extends(m, m', root)
    ensures !StackMissing(m, root) ==> !StackMissing(m', root)
  {
    hide Translate, KernelSame;
  }

  /** Bytes by which the mapped heap grows. */
  function Growth(brk: nat, delta: nat): nat {
    RoundUpOrder(brk, brk + delta);
    RoundUp(brk + delta) - RoundUp(brk)
  }

  datatype Grow = Grown | OutOfMemory | GrowPanic

  /** vmm_user_sbrk_allocate.  It panics only on a page that is in the way, and with the heap in order
      and the new break below the stack there is none.  A break is an address and the increment a
      positive int64_t, so that their sum does not wrap. */
  method SbrkAllocate(v: Manager, root: nat, ghost initial: nat, brk: nat, delta: nat) returns (r: Grow, newBrk: nat)
    requires Sound(v.m, root) && brk + delta < TWO64
    modifies v
    ensures Sound(v.m, root) && Extends(old(v.m), v.m, root) && newBrk == brk + delta
    ensures !StackMissing(old(v.m), root) ==> !StackMissing(v.m, root)
    ensures r.Grown? ==>
              && var first, k := RoundUp(brk) / PAGE_SIZE, Growth(brk, delta) / PAGE_SIZE;
              && PagesAdded(old(v.m), v.m, root, first, k) && HeapPages(v.m, root, first, k)
              && Written(old(v.m), v.m, root, RoundUp(brk), Zeros(Growth(brk, delta)))
    ensures r.Grown? ==> !Blocked(old(v.m), root, RoundUp(brk), newBrk)
    ensures r.GrowPanic? ==> Blocked(old(v.m), root, RoundUp(brk), newBrk)
    ensures r.OutOfMemory? ==> v.m.free == []
    ensures HeapOk(old(v.m), root, initial, brk) && r.Grown? ==> HeapOk(v.m, root, initial, newBrk)
    ensures HeapOk(old(v.m), root, initial, brk) && VA_MIN <= initial && newBrk <= USER_STACK_BOTTOM ==> !r.GrowPanic?
  {
    hide Sound, HeapOk, Written, Translate, Mapped, Unmapped, Claimed, Kept, PagesAdded, MemOk, RoundUp, Zeros, NoDup;
    hide HeapPages, Blocked, Extends, StackMissing, UserPage, SameButBytes;
    newBrk := brk + delta;
    ghost var m0 := v.m;
    RoundUpFacts(brk);
    RoundUpFacts(newBrk);
    RoundUpOrder(brk, newBrk);
    WrittenNothing(m0, root, RoundUp(brk));
    ZerosNone();
    ExtendsSelf(m0, root);
    ghost var first, k := RoundUp(brk) / PAGE_SIZE, 0;
    NothingAdded(m0, root, first);
    if HeapOk(m0, root, initial, brk) && VA_MIN <= initial && newBrk <= USER_STACK_BOTTOM {
      HeapNotBlocked(m0, root, initial, brk, newBrk);
    }
    var current := RoundUp(brk);
    while current < newBrk
      invariant current == RoundUp(brk) + k * PAGE_SIZE <= RoundUp(newBrk)
      invariant Sound(v.m, root) && Extends(m0, v.m, root)
      invariant PagesAdded(m0, v.m, root, first, k) && HeapPages(v.m, root, first, k)
      invariant Written(m0, v.m, root, RoundUp(brk), Zeros(k * PAGE_SIZE))
    {
      ghost var cur := v.m;
      SoundParts(cur, root);
      assert current / PAGE_SIZE == first + k && current % PAGE_SIZE == 0;
      var a, frames := v.Allocate(root, current, PAGE_SIZE, HEAP_PERM);
      SoundAfter(cur, v.m, v.m, root);
      SoundParts(v.m, root);
      SameButBytesSelf(v.m);
      MappedExtends(cur, v.m, v.m, root, first + k, frames, HEAP_PERM);
      ExtendsTwice(m0, cur, v.m, root);
      StacksKept(m0, v.m, root);
      if a.Oom? {
        return OutOfMemory, newBrk;
      }
      if a.Panic? {
        BlockedAt(m0, cur, root, first, k, RoundUp(brk), newBrk);
        return GrowPanic, newBrk;
      }
      OneMorePage(m0, cur, v.m, root, first, k, frames);
      AllocateWrites(cur, v.m, root, first + k, frames, HEAP_PERM);
      WrittenMore(m0, cur, v.m, root, RoundUp(brk), Zeros(k * PAGE_SIZE), Zeros(PAGE_SIZE));
      ZerosMore(k * PAGE_SIZE, PAGE_SIZE);
      current := current + PAGE_SIZE;
      k := k + 1;
      RoundUpNext(newBrk, current);
    }
    RoundUpReached(newBrk, current);
    StacksKept(m0, v.m, root);
    NotBlocked(m0, v.m, root, first, k, RoundUp(brk), newBrk);
    if HeapOk(m0, root, initial, brk) {
      HeapAfter(m0, v.m, root, initial, brk, newBrk, first, k);
    }
    return Grown, newBrk;
  }

  lemma OneMorePage(m: Mem, cur: Mem, next: Mem, root: nat, first: nat, k: nat, frames: seq<nat>)
    requires PagesAdded(m, cur, root, first, k) && HeapPages(cur, root, first, k) && MemOk(next)
    requires Mapped(cur, next, root, first + k, frames, HEAP_PERM) && Unmapped(cur, root, first + k, 1) && |frames| == 1
    ensures PagesAdded(m, next, root, first, k + 1) && HeapPages(next, root, first, k + 1)
  {
    hide Translate, MemOk, PagesAdded, HeapPages, Mapped, Unmapped;
    SameFlatSelf(next);
    MappedAdds(cur, next, next, root, first + k, frames, HEAP_PERM);
    AllPagesUser(cur, next, root, (first + k) * PAGE_SIZE, frames, HEAP_PERM);
    HeapPageAdded(m, cur, next, root, first, k, frames[0]);
  }

  lemma ZerosNone()
    ensures Zeros(0) == []
  {
  }

  lemma ZerosMore(a: nat, b: nat)
    ensures Zeros(a) + Zeros(b) == Zeros(a + b)
  {
  }

  lemma RoundUpOrder(a: nat, b: nat)
    requires a <= b
    ensures RoundUp(a) <= RoundUp(b)
  {
  }

  lemma RoundUpNext(n: nat, c: nat)
    requires c % PAGE_SIZE == 0 && c < n + PAGE_SIZE
    ensures c <= RoundUp(n)
  {
  }

  lemma RoundUpReached(n: nat, c: nat)
    requires c % PAGE_SIZE == 0 && n <= c <= RoundUp(n)
    ensures c == RoundUp(n)
  {
    RoundUpFacts(n);
  }

  /** proc_sbrk for growth: returns the old break. */
  method ProcSbrk(v: Manager, root: nat, ghost initial: nat, brk: nat, howMuch: nat)
    returns (r: Grow, before: nat, newBrk: nat)
    requires Sound(v.m, root) && brk + howMuch < TWO64
    modifies v
    ensures Sound(v.m, root) && Extends(old(v.m), v.m, root) && before == brk && newBrk == brk + howMuch
    ensures !StackMissing(old(v.m), root) ==> !StackMissing(v.m, root)
    ensures r.Grown? ==> Written(old(v.m), v.m, root, RoundUp(brk), Zeros(Growth(brk, howMuch)))
    ensures r.GrowPanic? ==> Blocked(old(v.m), root, RoundUp(brk), newBrk)
    ensures r.OutOfMemory? ==> v.m.free == []
    ensures HeapOk(old(v.m), root, initial, brk) && r.Grown? ==> HeapOk(v.m, root, initial, newBrk)
    ensures HeapOk(old(v.m), root, initial, brk) && VA_MIN <= initial && newBrk <= USER_STACK_BOTTOM ==> !r.GrowPanic?
  {
    hide Sound, HeapOk, Written, RoundUp, Zeros, Extends, StackMissing, Blocked, PagesAdded, HeapPages;
    before := brk;
    if howMuch > 0 {
      r, newBrk := SbrkAllocate(v, root, initial, brk, howMuch);
    } else {
      ZerosNone();
      ExtendsSelf(v.m, root);
      WrittenNothing(v.m, root, RoundUp(brk));
      r, newBrk := Grown, brk;
    }
  }

  // ----- proc_exec

  /** A new address space with its three stacks and nothing else. */
  ghost predicate EmptySpace(m: Mem, root: nat) {
    && Sound(m, root)
    && (forall p: nat :: Translate(m, root, p).Some? <==> StackPage(p))
    && Writable(m, root, USER_STACK_VPN, true)
    && Writable(m, root, INT_STACK_VPN, false)
    && Writable(m, root, SYSCALL_STACK_VPN, false)
    && StackRights(m, root)
  }

  /** A stack page can be written and not executed, by the user or by the kernel only. */
  predicate StackAccess(e: Pte, user: bool) {
    e.present && e.rw && e.xd && e.us == user
  }

  ghost predicate StackRights(m: Mem, root: nat) {
    && Translate(m, root, USER_STACK_VPN).Some? && StackAccess(Translate(m, root, USER_STACK_VPN).value, true)
    && Translate(m, root, INT_STACK_VPN).Some? && StackAccess(Translate(m, root, INT_STACK_VPN).value, false)
    && Translate(m, root, SYSCALL_STACK_VPN).Some? && StackAccess(Translate(m, root, SYSCALL_STACK_VPN).value, false)
  }

  lemma StackRightsKept(m: Mem, m': Mem, root: nat)
    requires StackRights(m, root) && Extends(m, m', root)
    ensures StackRights(m', root)
  {
    hide Translate, KernelSame;
  }

  /** vmm_user_pagetable_new makes such a space exactly if all three stacks could be mapped, and they
      could unless memory ran out. */
  lemma NewSpaceIsEmptyIff(m: Mem, m': Mem, root: nat)
    requires MemOk(m') && NewSpace(m, m', root)
    ensures EmptySpace(m', root) <==> !StackMissing(m', root)
    ensures m'.free != [] ==> !StackMissing(m', root)
  {
    hide Translate, MemOk;
  }

  /** The stacks are there, and writable, also after other pages were added. */
  lemma StacksStay(m: Mem, m': Mem, root: nat, end: nat)
    requires EmptySpace(m, root) && Sound(m', root) && OnlyBelow(m, m', root, end)
    ensures StackReady(m', root) && Writable(m', root, INT_STACK_VPN, false) && !StackMissing(m', root)
  {
    hide Translate, MemOk;
    assert Translate(m', root, USER_STACK_VPN) == Translate(m, root, USER_STACK_VPN);
    assert Translate(m', root, INT_STACK_VPN) == Translate(m, root, INT_STACK_VPN);
    assert Translate(m', root, SYSCALL_STACK_VPN) == Translate(m, root, SYSCALL_STACK_VPN);
  }

  lemma HeapEmpty(m: Mem, m': Mem, root: nat, end: nat)
    requires EmptySpace(m, root) && OnlyBelow(m, m', root, end) && end % PAGE_SIZE == 0
    ensures HeapOk(m', root, end, end)
  {
    hide Translate, Sound;
    forall p: nat | end <= p * PAGE_SIZE < USER_STACK_BOTTOM ensures Translate(m', root, p).None? {
      assert !StackPage(p);
      assert Translate(m, root, p) == None;
    }
  }

  /** Images lie outside the stack, so writing the stacks leaves them alone. */
  lemma ImageOffStack(m: Mem, cur: Mem, next: Mem, root: nat, file: seq<int>, h: Option<ProgramHeader>)
    requires EmptySpace(m, root) && RoomFor(m, root, file, h) && ImageThere(cur, root, file, h)
    requires forall a: nat :: !(a / PAGE_SIZE == USER_STACK_VPN || a / PAGE_SIZE == INT_STACK_VPN) ==>
        Peek(next, root, a) == Peek(cur, root, a)
    ensures ImageThere(next, root, file, h)
  {
    hide Tree, FramesOk, Owned, Translate, Image, Peek;
    if IsLoad(h) {
      var va, data := h.value.vaddr, Image(file, h.value);
      forall j | 0 <= j < |data| ensures Peek(next, root, va + j) == Some(data[j]) {
        var a := va + j;
        assert Peek(cur, root, va + j) == Some(data[j]);
        assert Peek(m, root, a) == None;
        StackByteThere(m, root, a);
      }
    }
  }

  lemma StackByteThere(m: Mem, root: nat, a: nat)
    requires EmptySpace(m, root)
    ensures a / PAGE_SIZE == USER_STACK_VPN || a / PAGE_SIZE == INT_STACK_VPN ==> Peek(m, root, a).Some?
  {
    hide Translate, Tree, FramesOk, Owned;
    var p := a / PAGE_SIZE;
    if p == USER_STACK_VPN || p == INT_STACK_VPN {
      assert StackPage(p);
      OwnedFrame(m, root, p);
    }
  }

  /** The two stack writes together touch only those two pages. */
  lemma StackWritesOnly(a: Mem, b: Mem, c: Mem, root: nat, at: nat, data: seq<int>)
    requires OnlyStack(a, b, root) && Written(b, c, root, at, data)
    requires INT_STACK_TOP - PAGE_SIZE <= at && at + |data| <= INT_STACK_TOP
    ensures forall x: nat :: !(x / PAGE_SIZE == USER_STACK_VPN || x / PAGE_SIZE == INT_STACK_VPN) ==>
        Peek(c, root, x) == Peek(a, root, x)
  {
    hide Peek;
    forall x: nat | !(x / PAGE_SIZE == USER_STACK_VPN || x / PAGE_SIZE == INT_STACK_VPN)
      ensures Peek(c, root, x) == Peek(a, root, x) {
      StackPageOf(x);
    }
  }

  lemma BlockKept(m: Mem, m': Mem, root: nat, args: seq<seq<int>>, at: nat, data: seq<int>)
    requires ArgumentsFit(args) && ArgumentBlock(m, root, args) && Written(m, m', root, at, data) &&
        at >= USER_STACK_TOP
    ensures ArgumentBlock(m', root, args)
  {
    hide Reads, Written, LittleEndian;
    ReadsElsewhere(m, m', root, at, data, ArgvAddress(args) + 8 * Argc(args), LittleEndian(0, 8));
    forall k | 0 <= k < Argc(args)
      ensures Reads(m', root, StringAddress(args, k), args[k] + [0])
      ensures Reads(m', root, ArgvAddress(args) + 8 * k, LittleEndian(StringAddress(args, k), 8))
    {
      InPage(args, k);
      InPage(args, k + 1);
      PushedStep(args, k);
      ReadsElsewhere(m, m', root, at, data, StringAddress(args, k), args[k] + [0]);
      ReadsElsewhere(m, m', root, at, data, ArgvAddress(args) + 8 * k, LittleEndian(StringAddress(args, k), 8));
    }
  }

  lemma HeapSameFlat(m: Mem, m': Mem, root: nat, initial: nat, brk: nat)
    requires HeapOk(m, root, initial, brk) && SameFlat(m, m')
    ensures HeapOk(m', root, initial, brk)
  {
    hide Translate;
    forall p: nat | initial <= p * PAGE_SIZE < USER_STACK_BOTTOM
      ensures Translate(m', root, p).Some? <==> p * PAGE_SIZE < brk {
    }
  }

  /** What a program finds when it starts. */
  ghost predicate Started(m: Mem, root: nat, file: seq<int>, headers: seq<Option<ProgramHeader>>, args: seq<seq<int>>,
                          entry: nat, rsp: nat, jumpToRing3: nat)
    requires ArgumentsFit(args)
  {
    && Sound(m, root)
    && (forall h :: h in headers ==> ImageThere(m, root, file, h))
    && ArgumentBlock(m, root, args)
    && AllProtected(m, root, headers)
    && HeapOk(m, root, DataEnd(headers), DataEnd(headers))
    && ContextAt(m, root, INT_STACK_TOP - 56, entry, rsp, ArgvAddress(args), Argc(args), jumpToRing3)
    && rsp % 16 == 8 && ArgvAddress(args) - 24 < rsp <= ArgvAddress(args) - 8
    && !StackMissing(m, root) && StackRights(m, root)
    && (forall k :: KernelRootOk(m, k) ==> SharesKernel(m, root, k))
    && ((exists h :: h in headers && IsLoad(h)) ==> VA_MIN <= DataEnd(headers))
  }

  /** In a started process, a segment reads as its header asks exactly when its size and its position
      in the file fit in 32 bits. */
  lemma StartedReadsFileIff(m: Mem, root: nat, file: seq<int>, headers: seq<Option<ProgramHeader>>, args: seq<seq<int>>,
                            entry: nat, rsp: nat, jumpToRing3: nat, h: Option<ProgramHeader>)
    requires |file| < TWO32 && ArgumentsFit(args) && Started(m, root, file, headers, args, entry, rsp, jumpToRing3)
    requires h in headers && IsLoad(h)
    ensures ReadsAsFile(m, root, file, h.value) <==> Fits32(h.value)
  {
    hide Sound, Reads, Image, ReadsAsFile, Fits32, ArgumentBlock, AllProtected, HeapOk, Context;
    assert ImageThere(m, root, file, h);
    ReadsAsFileIff(m, root, file, h.value);
  }

  /** proc_exec from the program headers on.  A refused program has its address space torn down:
      `at` is memory as it was then, and `freed` are the frames given back. */
  method ExecImage(v: Manager, root: nat, file: seq<int>, headers: seq<Option<ProgramHeader>>, args: seq<seq<int>>,
                   entry: nat, jumpToRing3: nat)
    returns (r: LoadResult, brk: nat, rsp: nat, ghost at: Mem, ghost freed: seq<nat>)
    requires EmptySpace(v.m, root) && ArgumentsFit(args) && |file| < TWO32 && entry < TWO64 && jumpToRing3 < TWO64
    modifies v
    ensures r.Loaded? ==>
              && Started(v.m, root, file, headers, args, entry, rsp, jumpToRing3) && brk == DataEnd(headers)
              && Extends(old(v.m), v.m, root)
    ensures r.Loaded? ==> forall i :: 0 <= i < |headers| ==>
              !Refused(file, headers[i]) && !Clashes(old(v.m), root, headers, i)
    ensures r.Bad? ==> at.free == [] || exists h :: h in headers && Refused(file, h)
    ensures r.Bad? ==>
              && Extends(old(v.m), at, root) && !StackMissing(at, root)
              && MemOk(v.m) && v.m == Torn(at, root, freed) && KernelSame(old(v.m), v.m)
              && Lists(freed, FramesUnder(at, Tag(root, 4, 0)) + ToSet(Stacks(at, root)))
              && (forall r: nat, p: nat :: Translate(v.m, r, p) == if r == root then None
                  else Translate(old(v.m), r, p))
    ensures r.LoadPanic? ==> exists i :: 0 <= i < |headers| && Clashes(old(v.m), root, headers, i)
    ensures r.Endless? ==> exists h :: h in headers && IsLoad(h) && LoadSize(h.value) > TWO32 - PAGE_SIZE
  {
    hide Sound, EmptySpace, Translate, OnlyBelow, ImageThere, RoomFor, Writable, StackReady, HeapOk, ArgumentBlock;
    hide SameButBytes, OnlyStack, Written, Reads, Context, MemOk, Peek, SameFlat, AllProtected, Extends, StackMissing;
    hide Refused, Clashes, LoadSize, KernelSame, Lists, FramesUnder, Torn, ContextAt, StackRights, KernelRootOk;
    hide SharesKernel, IsRoot;
    ghost var m0 := v.m;
    EmptyIsSound(m0, root);
    rsp, at, freed := 0, m0, [];
    r, brk := LoadProgram(v, root, file, headers);
    if r.LoadPanic? || r.Endless? {
      return;
    }
    ghost var m1 := v.m;
    SoundParts(m1, root);
    StacksKept(m0, m1, root);
    if r.Bad? {
      at := m1;
      var panicked;
      panicked, freed := UserPagetableFree(v, root);
      assert !panicked;
      TornDown(m0, m1, v.m, root);
      return;
    }
    StacksStay(m0, m1, root, brk);
    HeapEmpty(m0, m1, root, brk);
    var argc, argv;
    argc, argv, rsp := WriteArguments(v, root, args);
    ghost var m2 := v.m;
    ReadyAfter(m1, m2, root);
    var resume := WriteContext(v, root, entry, rsp, argv, argc, jumpToRing3);
    ghost var m3 := v.m;
    ReadyAfter(m2, m3, root);
    ExtendsTwice(m0, m1, m2, root);
    ExtendsTwice(m0, m2, m3, root);
    StacksKept(m1, m2, root);
    StacksKept(m2, m3, root);
    StackWritesOnly(m1, m2, m3, root, resume, Context(entry, rsp, argv, argc, jumpToRing3));
    forall h | h in headers ensures ImageThere(m3, root, file, h) {
      ImageOffStack(m0, m1, m3, root, file, h);
    }
    BlockKept(m2, m3, root, args, resume, Context(entry, rsp, argv, argc, jumpToRing3));
    ProtectedSameFlat(m1, m2, root, headers);
    ProtectedSameFlat(m2, m3, root, headers);
    HeapSameFlat(m1, m2, root, brk, brk);
    HeapSameFlat(m2, m3, root, brk, brk);
    StackRightsKept(m0, m3, root);
    AllShareKernel(m3, root);
  }

  lemma AllShareKernel(m: Mem, root: nat)
    requires Sound(m, root)
    ensures forall k :: KernelRootOk(m, k) ==> SharesKernel(m, root, k)
  {
    hide Tree, FramesOk, Owned, KernelRootOk, SharesKernel;
    forall k | KernelRootOk(m, k) ensures SharesKernel(m, root, k) {
      EveryRootSharesKernel(m, root, k);
    }
  }

  lemma TornDown(m: Mem, at: Mem, m': Mem, root: nat)
    requires Extends(m, at, root) && KernelSame(at, m')
    requires forall r: nat, p: nat :: Translate(m', r, p) == if r == root then None else Translate(at, r, p)
    ensures KernelSame(m, m')
    ensures forall r: nat, p: nat :: Translate(m', r, p) == if r == root then None else Translate(m, r, p)
  {
    hide Translate;
    KernelSameTwice(m, at, m');
    forall r: nat, p: nat ensures Translate(m', r, p) == if r == root then None else Translate(m, r, p) {
      if r != root {
        assert Translate(at, r, p) == Translate(m, r, p);
      }
    }
  }

  lemma ProtectedSameFlat(m: Mem, m': Mem, root: nat, headers: seq<Option<ProgramHeader>>)
    requires AllProtected(m, root, headers) && SameFlat(m, m')
    ensures AllProtected(m', root, headers)
  {
    hide Translate, AllProtected;
    ProtectedKept(m, m', root, headers);
  }

  lemma EmptyIsSound(m: Mem, root: nat)
    requires EmptySpace(m, root)
    ensures Sound(m, root) && !StackMissing(m, root) && StackRights(m, root)
  {
    hide Translate, MemOk;
  }

  lemma ReadyAfter(m: Mem, m': Mem, root: nat)
    requires Sound(m, root) && SameButBytes(m, m')
    ensures Sound(m', root) && SameFlat(m, m') && Extends(m, m', root)
    ensures Writable(m, root, INT_STACK_VPN, false) ==> Writable(m', root, INT_STACK_VPN, false)
  {
    SameButBytesFacts(m, m', root, INT_STACK_VPN);
  }
}
