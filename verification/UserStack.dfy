/** The argument block proc_exec builds at the top of the user stack, and the context from which a
    new process starts. */
module UserStack {
  import opened Basics
  import opened PageTables
  import opened Vmm
  import opened AddressSpace
  import opened Exec
  import opened Words

  lemma EightBytes()
    ensures Pow256(8) == TWO64
  {
    assert Pow256(4) == TWO32;
    assert Pow256(8) == 256 * (256 * (256 * (256 * Pow256(4))));
  }

  // ----- layout

  function Argc(args: seq<seq<int>>): (n: nat)
    ensures n <= |args| && n <= MAX_ARGV && (n == |args| || n == MAX_ARGV)
  {
    if |args| < MAX_ARGV then |args| else MAX_ARGV
  }

  /** Bytes taken by the first `n` strings with their terminators. */
  function Pushed(args: seq<seq<int>>, n: nat): nat
    requires n <= |args|
  {
    if n == 0 then 0 else Pushed(args, n - 1) + |args[n - 1]| + 1
  }

  lemma {:induction false} PushedGrows(args: seq<seq<int>>, k: nat, n: nat)
    requires k <= n <= |args|
    ensures Pushed(args, k) <= Pushed(args, n)
    decreases n - k
  {
    if k < n {
      PushedGrows(args, k, n - 1);
    }
  }

  /** The block fits in the one page of the user stack. */
  predicate ArgumentsFit(args: seq<seq<int>>) {
    Pushed(args, Argc(args)) + 8 * (Argc(args) + 1) <= PAGE_SIZE
  }

  /** `n` bytes below the top of the stack. */
  function Down(n: nat): nat {
    if n <= USER_STACK_TOP then USER_STACK_TOP - n else 0
  }

  /** Where argument `k` is stored. */
  function StringAddress(args: seq<seq<int>>, k: nat): nat
    requires k < |args|
  {
    Down(Pushed(args, k + 1))
  }

  /** Where argv points to. */
  function ArgvAddress(args: seq<seq<int>>): nat {
    Down(Pushed(args, Argc(args)) + 8 * (Argc(args) + 1))
  }

  /** The strings and the pointer array do not overlap. */
  lemma BlockDisjoint(args: seq<seq<int>>, j: nat, k: nat)
    requires j < k < Argc(args) && ArgumentsFit(args)
    ensures StringAddress(args, k) + |args[k]| + 1 <= StringAddress(args, j)
    ensures ArgvAddress(args) + 8 * (Argc(args) + 1) <= StringAddress(args, k)
    ensures StringAddress(args, j) + |args[j]| + 1 <= USER_STACK_TOP
  {
    PushedGrows(args, j + 1, k);
    PushedGrows(args, k + 1, Argc(args));
  }

  // ----- writing to the stack page

  /** Only bytes of the user stack of `root` differ. */
  ghost predicate OnlyStack(m: Mem, m': Mem, root: nat) {
    forall r: nat, a: nat :: !(r == root && USER_STACK_BOTTOM <= a < USER_STACK_TOP) ==> Peek(m', r, a) == Peek(m, r, a)
  }

  lemma OnlyStackSelf(m: Mem, root: nat)
    ensures OnlyStack(m, m, root)
  {
  }

  lemma OnlyStackWrite(m: Mem, cur: Mem, next: Mem, root: nat, dst: nat, data: seq<int>)
    requires OnlyStack(m, cur, root) && Written(cur, next, root, dst, data)
    requires USER_STACK_BOTTOM <= dst && dst + |data| <= USER_STACK_TOP
    ensures OnlyStack(m, next, root)
  {
  }

  ghost predicate StackReady(m: Mem, root: nat) {
    Sound(m, root) && Writable(m, root, USER_STACK_VPN, true)
  }

  lemma StackReadyAfter(m: Mem, m': Mem, root: nat)
    requires StackReady(m, root) && SameButBytes(m, m')
    ensures StackReady(m', root)
  {
    SameButBytesFacts(m, m', root, USER_STACK_VPN);
  }

  lemma StackPageOf(a: nat)
    ensures USER_STACK_BOTTOM <= a < USER_STACK_TOP ==> a / PAGE_SIZE == USER_STACK_VPN
    ensures INT_STACK_TOP - PAGE_SIZE <= a < INT_STACK_TOP ==> a / PAGE_SIZE == INT_STACK_VPN
  {
  }

  /** vmm_memcpy into the stack page always succeeds. */
  method Put(v: Manager, root: nat, dst: nat, data: seq<int>)
    requires StackReady(v.m, root) && USER_STACK_BOTTOM <= dst && dst + |data| <= USER_STACK_TOP
    modifies v
    ensures StackReady(v.m, root) && SameButBytes(old(v.m), v.m)
    ensures Written(old(v.m), v.m, root, dst, data)
  {
    hide MemOk, IsRoot, SameButBytes, Written, Translate;
    var ok, written := v.Memcpy(root, dst, data, true);
    assert data[..|data|] == data;
    if !ok {
      StackPageOf(dst + written);
    }
    StackReadyAfter(old(v.m), v.m, root);
  }

  /** The first `n` strings are in place. */
  ghost predicate StringsThere(m: Mem, root: nat, args: seq<seq<int>>, n: nat)
    requires n <= Argc(args)
  {
    forall k :: 0 <= k < n ==> Reads(m, root, StringAddress(args, k), args[k] + [0])
  }

  /** From pointer `n` on, the pointer array is in place, ending in a null pointer. */
  ghost predicate PointersThere(m: Mem, root: nat, args: seq<seq<int>>, n: nat)
    requires ArgumentsFit(args)
  {
    && Reads(m, root, ArgvAddress(args) + 8 * Argc(args), LittleEndian(0, 8))
    && forall k :: n <= k < Argc(args) ==>
         Reads(m, root, ArgvAddress(args) + 8 * k, LittleEndian(StringAddress(args, k), 8))
  }

  lemma StringsStep(m: Mem, m': Mem, root: nat, args: seq<seq<int>>, n: nat)
    requires ArgumentsFit(args) && n < Argc(args) && StringsThere(m, root, args, n)
    requires Written(m, m', root, StringAddress(args, n), args[n] + [0])
    ensures StringsThere(m', root, args, n + 1)
  {
    hide Written, Reads;
    forall k | 0 <= k < n + 1 ensures Reads(m', root, StringAddress(args, k), args[k] + [0]) {
      if k < n {
        BlockDisjoint(args, k, n);
        ReadsElsewhere(m, m', root, StringAddress(args, n), args[n] + [0], StringAddress(args, k), args[k] + [0]);
      } else {
        WrittenReads(m, m', root, StringAddress(args, n), args[n] + [0]);
      }
    }
  }

  /** Words written below all strings leave the strings alone. */
  lemma StringsKept(m: Mem, m': Mem, root: nat, args: seq<seq<int>>, dst: nat, data: seq<int>)
    requires ArgumentsFit(args) && StringsThere(m, root, args, Argc(args)) && Written(m, m', root, dst, data)
    requires dst + |data| <= USER_STACK_TOP - Pushed(args, Argc(args))
    ensures StringsThere(m', root, args, Argc(args))
  {
    hide Written, Reads;
    forall k | 0 <= k < Argc(args) ensures Reads(m', root, StringAddress(args, k), args[k] + [0]) {
      PushedGrows(args, k + 1, Argc(args));
      ReadsElsewhere(m, m', root, dst, data, StringAddress(args, k), args[k] + [0]);
    }
  }

  lemma PointersStep(m: Mem, m': Mem, root: nat, args: seq<seq<int>>, n: nat)
    requires ArgumentsFit(args) && n < Argc(args) && PointersThere(m, root, args, n + 1)
    requires Written(m, m', root, ArgvAddress(args) + 8 * n, LittleEndian(StringAddress(args, n), 8))
    ensures PointersThere(m', root, args, n)
  {
    hide Written, Reads, LittleEndian;
    var dst, data := ArgvAddress(args) + 8 * n, LittleEndian(StringAddress(args, n), 8);
    ReadsElsewhere(m, m', root, dst, data, ArgvAddress(args) + 8 * Argc(args), LittleEndian(0, 8));
    forall k | n <= k < Argc(args)
      ensures Reads(m', root, ArgvAddress(args) + 8 * k, LittleEndian(StringAddress(args, k), 8))
    {
      if k == n {
        WrittenReads(m, m', root, dst, data);
      } else {
        ReadsElsewhere(m, m', root, dst, data, ArgvAddress(args) + 8 * k, LittleEndian(StringAddress(args, k), 8));
      }
    }
  }

  /** The argument block is complete: argv is the array of the addresses of the strings, in order,
      followed by a null pointer. */
  ghost predicate ArgumentBlock(m: Mem, root: nat, args: seq<seq<int>>)
    requires ArgumentsFit(args)
  {
    StringsThere(m, root, args, Argc(args)) && PointersThere(m, root, args, 0)
  }

  lemma InPage(args: seq<seq<int>>, k: nat)
    requires ArgumentsFit(args) && k <= Argc(args)
    ensures Down(Pushed(args, k)) == USER_STACK_TOP - Pushed(args, k) >= USER_STACK_BOTTOM
    ensures ArgvAddress(args) == USER_STACK_TOP - Pushed(args, Argc(args)) - 8 * (Argc(args) + 1) >= USER_STACK_BOTTOM
  {
    PushedGrows(args, k, Argc(args));
  }

  /** The argument part of proc_exec: strings from the top down, then the pointers. */
  method WriteArguments(v: Manager, root: nat, args: seq<seq<int>>) returns (argc: nat, argv: nat, rsp: nat)
    requires StackReady(v.m, root) && ArgumentsFit(args)
    modifies v
    ensures StackReady(v.m, root) && SameButBytes(old(v.m), v.m) && OnlyStack(old(v.m), v.m, root)
    ensures argc == Argc(args) && argv == ArgvAddress(args)
    ensures ArgumentBlock(v.m, root, args)
    ensures rsp % 16 == 8 && argv - 24 < rsp <= argv - 8
  {
    hide StackReady, SameButBytes, OnlyStack, Written, Reads, StringsThere, PointersThere, LittleEndian, Pushed, Peek;
    ghost var m0 := v.m;
    SameButBytesFrom(m0, root);
    OnlyStackSelf(m0, root);
    StringsNone(m0, root, args);
    var pointers: seq<nat> := [];
    argc := 0;
    PushedNone(args);
    rsp := USER_STACK_TOP;
    while argc < MAX_ARGV && argc < |args|
      invariant 0 <= argc <= Argc(args) && |pointers| == argc
      invariant StackReady(v.m, root) && SameButBytes(m0, v.m) && OnlyStack(m0, v.m, root)
      invariant rsp == USER_STACK_TOP - Pushed(args, argc) && rsp >= USER_STACK_BOTTOM
      invariant StringsThere(v.m, root, args, argc)
      invariant forall k :: 0 <= k < argc ==> pointers[k] == StringAddress(args, k)
    {
      InPage(args, argc + 1);
      PushedStep(args, argc);
      ghost var cur := v.m;
      rsp := rsp - (|args[argc]| + 1);
      Put(v, root, rsp, args[argc] + [0]);
      SameButBytesTwice(m0, cur, v.m);
      OnlyStackWrite(m0, cur, v.m, root, rsp, args[argc] + [0]);
      StringsStep(cur, v.m, root, args, argc);
      pointers := pointers + [rsp];
      argc := argc + 1;
    }
    InPage(args, argc);
    ghost var cur := v.m;
    rsp := rsp - 8;
    Put(v, root, rsp, LittleEndian(0, 8));
    SameButBytesTwice(m0, cur, v.m);
    OnlyStackWrite(m0, cur, v.m, root, rsp, LittleEndian(0, 8));
    StringsKept(cur, v.m, root, args, rsp, LittleEndian(0, 8));
    PointersStart(cur, v.m, root, args);
    var i := argc;
    while i > 0
      invariant 0 <= i <= argc
      invariant StackReady(v.m, root) && SameButBytes(m0, v.m) && OnlyStack(m0, v.m, root)
      invariant rsp == ArgvAddress(args) + 8 * i
      invariant StringsThere(v.m, root, args, argc) && PointersThere(v.m, root, args, i)
    {
      i := i - 1;
      rsp := rsp - 8;
      ghost var now := v.m;
      Put(v, root, rsp, LittleEndian(pointers[i], 8));
      SameButBytesTwice(m0, now, v.m);
      OnlyStackWrite(m0, now, v.m, root, rsp, LittleEndian(pointers[i], 8));
      StringsKept(now, v.m, root, args, rsp, LittleEndian(pointers[i], 8));
      PointersStep(now, v.m, root, args, i);
    }
    argv := rsp;
    rsp := rsp - (rsp % 16 + 8);
    Aligned(argv);
  }

  lemma Aligned(n: nat)
    ensures (n - (n % 16 + 8)) % 16 == 8 && n - 24 < n - (n % 16 + 8) <= n - 8
  {
  }

  lemma SameButBytesFrom(m: Mem, root: nat)
    requires StackReady(m, root)
    ensures SameButBytes(m, m)
  {
    SameButBytesSelf(m);
  }

  lemma StringsNone(m: Mem, root: nat, args: seq<seq<int>>)
    ensures StringsThere(m, root, args, 0)
  {
  }

  lemma PushedNone(args: seq<seq<int>>)
    ensures Pushed(args, 0) == 0
  {
  }

  lemma PushedStep(args: seq<seq<int>>, n: nat)
    requires n < |args|
    ensures Pushed(args, n + 1) == Pushed(args, n) + |args[n]| + 1
  {
  }

  lemma PointersStart(m: Mem, m': Mem, root: nat, args: seq<seq<int>>)
    requires ArgumentsFit(args) && Written(m, m', root, ArgvAddress(args) + 8 * Argc(args), LittleEndian(0, 8))
    ensures PointersThere(m', root, args, Argc(args))
  {
    WrittenReads(m, m', root, ArgvAddress(args) + 8 * Argc(args), LittleEndian(0, 8));
  }

  // ----- decoding

  function PeekAt(m: Mem, root: nat, a: nat, j: nat): Option<int> {
    Peek(m, root, a + j)
  }

  /** The eight-byte word at `a`. */
  function ReadWord(m: Mem, root: nat, a: nat): Option<int> {
    if forall j :: 0 <= j < 8 ==> PeekAt(m, root, a, j).Some?
    then Some(FromLittleEndian(seq(8, j requires 0 <= j < 8 &&
        PeekAt(m, root, a, j).Some? => PeekAt(m, root, a, j).value)))
    else None
  }

  lemma ReadsAt(m: Mem, root: nat, a: nat, s: seq<int>, j: nat)
    requires Reads(m, root, a, s) && j < |s|
    ensures PeekAt(m, root, a, j) == Some(s[j])
  {
  }

  lemma ReadsWord(m: Mem, root: nat, a: nat, value: nat)
    requires Reads(m, root, a, LittleEndian(value, 8)) && value < TWO64
    ensures ReadWord(m, root, a) == Some(value)
  {
    hide PeekAt, Reads, LittleEndian, FromLittleEndian;
    var s := LittleEndian(value, 8);
    forall j | 0 <= j < 8 ensures PeekAt(m, root, a, j) == Some(s[j]) {
      ReadsAt(m, root, a, s, j);
    }
    assert seq(8, j requires 0 <= j < 8 && PeekAt(m, root, a, j).Some? => PeekAt(m, root, a, j).value) == s;
    EightBytes();
    WordRoundTrip(value, 8);
  }

  /** A NUL-terminated string at `a`. */
  ghost predicate StringAt(m: Mem, root: nat, a: nat, s: seq<int>) {
    0 !in s && Reads(m, root, a, s + [0])
  }

  /** There is only one string to be read at an address. */
  lemma StringUnique(m: Mem, root: nat, a: nat, s: seq<int>, t: seq<int>)
    requires StringAt(m, root, a, s) && StringAt(m, root, a, t) && |s| <= |t|
    ensures s == t
  {
    hide Reads;
    var s0, t0 := s + [0], t + [0];
    forall j | 0 <= j < |s0| ensures s0[j] == t0[j] {
      ReadsAt(m, root, a, s0, j);
      ReadsAt(m, root, a, t0, j);
    }
    assert s0[|s|] == 0;
    assert forall j :: 0 <= j < |t| ==> t[j] in t && t0[j] == t[j];
    assert |s| == |t|;
  }

  /** A program decoding its argv finds exactly its first argc arguments, then a null pointer. */
  lemma ArgumentsDecode(m: Mem, root: nat, args: seq<seq<int>>, k: nat)
    requires ArgumentsFit(args) && ArgumentBlock(m, root, args) && k <= Argc(args)
    requires forall i :: 0 <= i < |args| ==> 0 !in args[i]
    ensures k == Argc(args) ==> ReadWord(m, root, ArgvAddress(args) + 8 * k) == Some(0)
    ensures k < Argc(args) ==>
              && ReadWord(m, root, ArgvAddress(args) + 8 * k) == Some(StringAddress(args, k))
              && StringAt(m, root, StringAddress(args, k), args[k])
  {
    hide Reads, ReadWord, LittleEndian;
    if k == Argc(args) {
      ReadsWord(m, root, ArgvAddress(args) + 8 * k, 0);
    } else {
      ReadsWord(m, root, ArgvAddress(args) + 8 * k, StringAddress(args, k));
    }
  }

  // ----- the initial context

  /** struct process_context as proc_exec fills it: r15, r14, r13, r12, rbp, rbx, return address. */
  function Context(entry: nat, rsp: nat, argv: nat, argc: nat, jumpToRing3: nat): (s: seq<int>)
    ensures |s| == 56
  {
    LittleEndian(entry, 8) + LittleEndian(rsp, 8) + LittleEndian(argv, 8) + LittleEndian(argc, 8)
    + LittleEndian(0, 8) + LittleEndian(0, 8) + LittleEndian(jumpToRing3, 8)
  }

  /** What context_switch finds when it takes its stack pointer from `at`: the words it pops into r15,
      r14, r13, r12, rbp and rbx, and the address it returns to. */
  ghost predicate ContextAt(m: Mem, root: nat, at: nat, r15: nat, r14: nat, r13: nat, r12: nat, ret: nat) {
    && ReadWord(m, root, at) == Some(r15) && ReadWord(m, root, at + 8) == Some(r14)
    && ReadWord(m, root, at + 16) == Some(r13) && ReadWord(m, root, at + 24) == Some(r12)
    && ReadWord(m, root, at + 32) == Some(0) && ReadWord(m, root, at + 40) == Some(0)
    && ReadWord(m, root, at + 48) == Some(ret)
  }

  lemma ReadsPart(m: Mem, root: nat, a: nat, s: seq<int>, i: nat, n: nat)
    requires Reads(m, root, a, s) && i + n <= |s|
    ensures Reads(m, root, a + i, s[i..i + n])
  {
    hide Peek;
    var part := s[i..i + n];
    forall j | 0 <= j < |part| ensures Peek(m, root, a + i + j) == Some(part[j]) {
      assert part[j] == s[i + j];
      assert Peek(m, root, a + (i + j)) == Some(s[i + j]);
    }
  }

  /** Word `k` of a sequence of words. */
  lemma WordPart(before: seq<int>, word: seq<int>, rest: seq<int>)
    ensures (before + word + rest)[|before|..|before| + |word|] == word
  {
  }

  lemma ReadsWordIn(m: Mem, root: nat, a: nat, before: seq<int>, value: nat, rest: seq<int>)
    requires Reads(m, root, a, before + LittleEndian(value, 8) + rest) && value < TWO64
    ensures ReadWord(m, root, a + |before|) == Some(value)
  {
    hide Reads, ReadWord, LittleEndian;
    WordPart(before, LittleEndian(value, 8), rest);
    ReadsPart(m, root, a, before + LittleEndian(value, 8) + rest, |before|, 8);
    ReadsWord(m, root, a + |before|, value);
  }

  /** The registers of the first context read back: the program starts at `entry`, on the stack pointer
      `rsp`, with argc and argv where jump_to_ring3 takes them from. */
  lemma ContextDecode(m: Mem, root: nat, at: nat, entry: nat, rsp: nat, argv: nat, argc: nat, jumpToRing3: nat)
    requires Reads(m, root, at, Context(entry, rsp, argv, argc, jumpToRing3))
    requires entry < TWO64 && rsp < TWO64 && argv < TWO64 && argc < TWO64 && jumpToRing3 < TWO64
    ensures ContextAt(m, root, at, entry, rsp, argv, argc, jumpToRing3)
  {
    hide Reads, ReadWord, LittleEndian;
    var w0, w1, w2, w3 := LittleEndian(entry, 8), LittleEndian(rsp, 8), LittleEndian(argv, 8), LittleEndian(argc, 8);
    var z, w6 := LittleEndian(0, 8), LittleEndian(jumpToRing3, 8);
    var c := Context(entry, rsp, argv, argc, jumpToRing3);
    assert c == [] + w0 + (w1 + w2 + w3 + z + z + w6);
    ReadsWordIn(m, root, at, [], entry, w1 + w2 + w3 + z + z + w6);
    assert c == w0 + w1 + (w2 + w3 + z + z + w6);
    ReadsWordIn(m, root, at, w0, rsp, w2 + w3 + z + z + w6);
    assert c == (w0 + w1) + w2 + (w3 + z + z + w6);
    ReadsWordIn(m, root, at, w0 + w1, argv, w3 + z + z + w6);
    assert c == (w0 + w1 + w2) + w3 + (z + z + w6);
    ReadsWordIn(m, root, at, w0 + w1 + w2, argc, z + z + w6);
    assert c == (w0 + w1 + w2 + w3) + z + (z + w6);
    ReadsWordIn(m, root, at, w0 + w1 + w2 + w3, 0, z + w6);
    assert c == (w0 + w1 + w2 + w3 + z) + z + w6;
    ReadsWordIn(m, root, at, w0 + w1 + w2 + w3 + z, 0, w6);
    assert c == (w0 + w1 + w2 + w3 + z + z) + w6 + [];
    ReadsWordIn(m, root, at, w0 + w1 + w2 + w3 + z + z, jumpToRing3, []);
  }

  /** The context is written at the top of the interrupt stack, in supervisor mode. */
  method WriteContext(v: Manager, root: nat, entry: nat, rsp: nat, argv: nat, argc: nat, jumpToRing3: nat)
    returns (resume: nat)
    requires Sound(v.m, root) && Writable(v.m, root, INT_STACK_VPN, false)
    requires entry < TWO64 && rsp < TWO64 && argv < TWO64 && argc < TWO64 && jumpToRing3 < TWO64
    modifies v
    ensures ContextAt(v.m, root, resume, entry, rsp, argv, argc, jumpToRing3)
    ensures SameButBytes(old(v.m), v.m) && resume == INT_STACK_TOP - 56
    ensures Written(old(v.m), v.m, root, resume, Context(entry, rsp, argv, argc, jumpToRing3))
  {
    hide MemOk, IsRoot, SameButBytes, Written, Translate, Context, ContextAt, Reads;
    resume := INT_STACK_TOP - 56;
    var data := Context(entry, rsp, argv, argc, jumpToRing3);
    var ok, written := v.Memcpy(root, resume, data, false);
    assert data[..|data|] == data;
    if !ok {
      StackPageOf(resume + written);
    }
    ghost var m0 := old(v.m);
    WrittenReads(m0, v.m, root, resume, data);
    ContextDecode(v.m, root, resume, entry, rsp, argv, argc, jumpToRing3);
  }
}
