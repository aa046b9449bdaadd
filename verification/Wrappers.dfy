/** The wrappers fibonacci_test_enter and sum_test_enter, run around the functions they call.

    A wrapper saves x30 with an indexed store, calls, and restores x30 with an indexed load.  Neither moves sp, so
    the restore does not read what the save wrote: the wrapper ends by returning to whatever eight bytes lie at
    its entry sp.  And the store takes its displacement from register 31 of the array, where `str wzr` of the
    summing function reads its zero. */
module Wrappers {
  import opened Words
  import opened Util
  import opened Memory
  import opened Virtio
  import opened Isa
  import opened Runs
  import opened Listings
  import opened Programs
  import opened VirtualMemory
  import opened PushPop
  import Fibonacci
  import Sum

  const FIBONACCI_WRAPPER: seq<u32> := [
    0xf81c0ffe,  // 0        str  x30, [sp, -64]!
    0x94000004,  // 1        bl   fibonacci
    0xd2800025,  // 2        movz x5, 1
    0xf84407fe,  // 3        ldr  x30, [sp], 64
    0xd65f03c0   // 4        ret
  ]

  const SUM_WRAPPER: seq<u32> := [
    0xf81e0ffe,  // 0        str  x30, [sp, -32]!
    0x94000004,  // 1        bl   testfn_sum
    0xd2800025,  // 2        movz x5, 1
    0xf84207fe,  // 3        ldr  x30, [sp], 32
    0xd65f03c0   // 4        ret
  ]

  /** The wrapper that displaces by `k` bytes; the guard keeps the listing folded. */
  ghost predicate IsWrapper(q: Program, k: nat)
  {
    && (k == 32 || k == 64) && |q.code| == 5
    && forall z {:trigger Open(z)} :: Open(z) ==> q.code == if k == 64 then FIBONACCI_WRAPPER else SUM_WRAPPER
  }

  // ----- how the emulator decodes the words -----

  lemma SaveReads(q: Program, k: nat)
    requires IsWrapper(q, k)
    ensures Reads(q.code[0], Single(false, DWord, PreIndex, 512 - k, 30, 31)) && SignedBy(512 - k, 256) == 0 - k
  {
    assert Open(0);
    if k == 64 { Save64Decodes(q.code[0]); } else { Save32Decodes(q.code[0]); }
  }

  lemma Save64Decodes(w: u32)
    requires w == 0xf81c0ffe
    ensures Reads(w, Single(false, DWord, PreIndex, 448, 30, 31))
  {
  }

  lemma Save32Decodes(w: u32)
    requires w == 0xf81e0ffe
    ensures Reads(w, Single(false, DWord, PreIndex, 480, 30, 31))
  {
  }

  lemma RestoreReads(q: Program, k: nat)
    requires IsWrapper(q, k)
    ensures Reads(q.code[3], Single(true, DWord, PostIndex, k, 30, 31)) && SignedBy(k, 256) == k
  {
    assert Open(0);
    if k == 64 { Restore64Decodes(q.code[3]); } else { Restore32Decodes(q.code[3]); }
  }

  lemma Restore64Decodes(w: u32)
    requires w == 0xf84407fe
    ensures Reads(w, Single(true, DWord, PostIndex, 64, 30, 31))
  {
  }

  lemma Restore32Decodes(w: u32)
    requires w == 0xf84207fe
    ensures Reads(w, Single(true, DWord, PostIndex, 32, 30, 31))
  {
  }

  lemma CallReads(q: Program, k: nat)
    requires IsWrapper(q, k)
    ensures Reads(q.code[1], B(true, 4))
  {
    assert Open(0);
    CallDecodes(q.code[1]);
  }

  lemma CallDecodes(w: u32)
    requires w == 0x94000004
    ensures Reads(w, B(true, 4))
  {
  }

  lemma MarkReads(q: Program, k: nat)
    requires IsWrapper(q, k)
    ensures Reads(q.code[2], MoveWide(true, 2, 0, 1, 5))
  {
    assert Open(0);
    MarkDecodes(q.code[2]);
  }

  lemma MarkDecodes(w: u32)
    requires w == 0xd2800025
    ensures Reads(w, MoveWide(true, 2, 0, 1, 5))
  {
  }

  lemma RetReads(q: Program, k: nat)
    requires IsWrapper(q, k)
    ensures Reads(q.code[4], Ret(30))
  {
    assert Open(0);
    RetDecodes(q.code[4]);
  }

  // ----- up to the call -----

  /** At the wrapper's entry, with room for the saved register and eight bytes to read at sp. */
  ghost predicate Enters(s: State, q: Program, k: nat)
  {
    && IsWrapper(q, k) && At(s, q, 0)
    && RAM_BASE + k <= s.sp && s.sp + 8 <= RAM_BASE + RAM_SIZE
    && (s.sp - k + 8 <= q.base || q.base + 20 <= s.sp - k)
  }

  /** x30 is stored below sp, and register 31 is displaced in place of sp. */
  function Saved(s: State, k: nat): State
    requires s.Valid() && InHost(s.sp - k, 8)
  {
    Poke(s, s.sp - k, 8, s.x[30]).(x := s.x[31 := By(s.x[31], 0 - k)], pc := U64(s.pc + 4))
  }

  lemma SavePlace(s: State, k: nat, addr: u64)
    requires s.Valid() && !s.mmu.Enabled() && addr == s.sp - k && InHost(addr, 8)
    ensures Writes(s, By(s.sp, 0 - k), addr, DWord)
    ensures Saved(s, k) == Written(s, addr, s.x[30], DWord).(x := s.x[31 := By(s.x[31], 0 - k)], pc := U64(s.pc + 4))
  {
  }

  lemma StepSave(f: State -> Try<State>, s: State, q: Program, k: nat)
    requires Emulates(f) && Enters(s, q, k)
    ensures f(s) == Ok(Saved(s, k))
  {
    var i := Single(false, DWord, PreIndex, 512 - k, 30, 31);
    SaveReads(q, k);
    SavePlace(s, k, s.sp - k);
    IndexedStoreLeavesSp(s, i, 0 - k, s.sp - k, Saved(s, k));
    StepIs(f, s, q, 0, i, Saved(s, k));
  }

  lemma SavedIsAt(s: State, q: Program, k: nat)
    requires Enters(s, q, k)
    ensures At(Saved(s, k), q, 1)
  {
    NextWord(s, q, 0);
    PlacedPut(s.mem.ram, q, s.sp - k - RAM_BASE, 8, s.x[30]);
  }

  /** The state in which the function is entered. */
  function Called(s: State, q: Program, k: nat): State
    requires Enters(s, q, k)
  {
    s.(pc := q.base + 20, x := s.x[31 := By(s.x[31], 0 - k)][30 := q.base + 8],
       mem := s.mem.(ram := Put(s.mem.ram, s.sp - k - RAM_BASE, 8, s.x[30])))
  }

  lemma Calls(f: State -> Try<State>, s: State, q: Program, k: nat)
    requires Emulates(f) && Enters(s, q, k)
    ensures Goes(f, s, 2, Called(s, q, k))
  {
    var u := Saved(s, k);
    StepSave(f, s, q, k);
    SavedIsAt(s, q, k);
    CallReads(q, k);
    StepB(f, u, q, 1, true, 4, 4);
    NextWord(u, q, 1);
    assert u.Set(30, U64(u.pc + 4)).Jump(U64(4 * 4)) == Called(s, q, k);
    GoesOne(f, s, u);
    GoesStep(f, s, 1, u, Called(s, q, k));
  }

  // ----- from the return on -----

  lemma StepMark(f: State -> Try<State>, t: State, q: Program, k: nat)
    requires Emulates(f) && IsWrapper(q, k) && At(t, q, 2)
    ensures f(t) == Ok(t.Set(5, 1).Advance())
  {
    MarkReads(q, k);
    ExecMark(t);
    StepIs(f, t, q, 2, MoveWide(true, 2, 0, 1, 5), t.Set(5, 1).Advance());
  }

  lemma ExecMark(t: State)
    requires t.Valid()
    ensures Does(t, MoveWide(true, 2, 0, 1, 5), t.Set(5, 1).Advance())
  {
    LslZero(1);
  }

  /** x30 is loaded from where sp still is. */
  function Restored(u: State, k: nat): State
    requires u.Valid() && InHost(u.sp, 8)
  {
    u.(x := u.x[30 := Word64(u, u.sp)][31 := By(u.x[31], k)], pc := U64(u.pc + 4))
  }

  lemma StepRestore(f: State -> Try<State>, u: State, q: Program, k: nat)
    requires Emulates(f) && IsWrapper(q, k) && At(u, q, 3) && InHost(u.sp, 8)
    ensures f(u) == Ok(Restored(u, k))
  {
    var i := Single(true, DWord, PostIndex, k, 30, 31);
    RestoreReads(q, k);
    LoadWord64(u, u.sp);
    IndexedLoadLeavesSp(u, i, k, Word64(u, u.sp), Restored(u, k));
    StepIs(f, u, q, 3, i, Restored(u, k));
  }

  /** The function has come back in `t`; two more instructions lead to the wrapper's RET. */
  function AtRet(t: State, q: Program, k: nat): State
    requires t.Valid() && InHost(t.sp, 8)
  {
    t.(pc := U64(q.base + 16), x := t.x[5 := 1][30 := Word64(t, t.sp)][31 := By(t.x[31], k)])
  }

  lemma ComesBack(f: State -> Try<State>, t: State, q: Program, k: nat)
    requires Emulates(f) && IsWrapper(q, k) && At(t, q, 2) && InHost(t.sp, 8)
    ensures Goes(f, t, 2, AtRet(t, q, k)) && At(AtRet(t, q, k), q, 4)
  {
    var u := t.Set(5, 1).Advance();
    StepMark(f, t, q, k);
    NextWord(t, q, 2);
    StepRestore(f, u, q, k);
    NextWord(u, q, 3);
    assert Restored(u, k) == AtRet(t, q, k);
    GoesOne(f, t, u);
    GoesStep(f, t, 1, u, AtRet(t, q, k));
  }

  /** The wrapper's RET goes to the word found at sp, and a zero there ends the process; the guard keeps the step
      folded. */
  ghost predicate LeavesBy(f: State -> Try<State>, u: State, target: u64)
  {
    forall z {:trigger Open(z)} :: Open(z) ==> f(u) == if target == 0 then Stop(Exit(0)) else Ok(u.(pc := target))
  }

  lemma StepLeave(f: State -> Try<State>, u: State, q: Program, k: nat)
    requires Emulates(f) && IsWrapper(q, k) && At(u, q, 4)
    ensures LeavesBy(f, u, u.x[30])
  {
    RetReads(q, k);
    if u.x[30] == 0 { RetToZero(f, u, q, 4); } else { StepRet(f, u, q, 4); }
  }

  lemma RetToZero(f: State -> Try<State>, u: State, q: Program, k: nat)
    requires Emulates(f) && At(u, q, k) && Reads(q.code[k], Ret(30)) && u.x[30] == 0
    ensures f(u) == Stop(Exit(0))
  {
    Fetches(u, q, k);
    assert Open(0);
  }

  // ----- around a call -----

  lemma SameWord(s: State, t: State)
    requires s.Valid() && t.Valid() && t.sp == s.sp && InHost(s.sp, 8)
    requires SameBytes(s.mem.ram, t.mem.ram, s.sp - RAM_BASE, 8)
    ensures Word64(t, t.sp) == Word64(s, s.sp)
  {
    GetFrame(s.mem.ram, t.mem.ram, s.sp - RAM_BASE, 8);
  }

  /** If the function comes back with sp and the word at sp as they were, that word is where the wrapper goes. */
  lemma Around(f: State -> Try<State>, s: State, q: Program, k: nat, n: nat, t: State)
    requires Emulates(f) && Enters(s, q, k) && Goes(f, Called(s, q, k), n, t) && At(t, q, 2) && t.sp == s.sp
    requires SameBytes(s.mem.ram, t.mem.ram, s.sp - RAM_BASE, 8)
    ensures Goes(f, s, n + 4, AtRet(t, q, k)) && LeavesBy(f, AtRet(t, q, k), Word64(s, s.sp))
    ensures AtRet(t, q, k).x[30] == Word64(s, s.sp)
  {
    SameWord(s, t);
    Calls(f, s, q, k);
    ComesBack(f, t, q, k);
    StepLeave(f, AtRet(t, q, k), q, k);
    GoesThrough(f, s, 2, Called(s, q, k), n, t);
    GoesThrough(f, s, 2 + n, t, 2, AtRet(t, q, k));
  }

  /** What a function that keeps to its stack, `deep` bytes below sp, leaves of the wrapper's RAM. */
  lemma StackOnly(s: State, q: Program, k: nat, deep: nat, r: Ram)
    requires Enters(s, q, k) && k <= deep && RAM_BASE + deep <= s.sp && (s.sp <= q.base || q.base + 20 <= s.sp - deep)
    requires SameOutside(Called(s, q, k).mem.ram, r, s.sp - deep - RAM_BASE, s.sp - RAM_BASE)
    ensures SameOutside(s.mem.ram, r, s.sp - deep - RAM_BASE, s.sp - RAM_BASE)
    ensures SameBytes(s.mem.ram, r, s.sp - RAM_BASE, 8) && Placed(r, q)
  {
    var c := Called(s, q, k).mem.ram;
    assert SameOutside(s.mem.ram, c, s.sp - deep - RAM_BASE, s.sp - RAM_BASE);
    CodeKept(s.mem.ram, r, q, s.sp - deep - RAM_BASE, s.sp - RAM_BASE);
  }

  /** The code of the function is in place when it is called. */
  lemma CodeInPlace(s: State, q: Program, k: nat, p: Program)
    requires Enters(s, q, k) && Placed(s.mem.ram, p) && p.base == q.base + 20 && |p.code| > 0
    requires s.sp <= p.base || p.base + 4 * |p.code| <= s.sp - k
    requires k >= 8
    ensures At(Called(s, q, k), p, 0)
  {
    PlacedPut(s.mem.ram, p, s.sp - k - RAM_BASE, 8, s.x[30]);
  }

  lemma BackAndForth(v: u64, k: nat)
    ensures By(By(v, 0 - k), k) == v
  {
    DownAndUp(v, k, By(v, 0 - k), U64(k));
    WrapRight(By(v, 0 - k), k);
  }

  // ----- the summing function -----

  /** At sum_test_enter, with testfn_sum behind it and 32 bytes of stack clear of the code. */
  ghost predicate EntersSum(s: State, q: Program, p: Program)
  {
    && IsWrapper(q, 32) && At(s, q, 0) && Sum.IsSum(p) && Placed(s.mem.ram, p) && p.base == q.base + 20
    && RAM_BASE + 32 <= s.sp && s.sp + 8 <= RAM_BASE + RAM_SIZE
    && (s.sp <= q.base || p.base + 4 * Sum.WORDS <= s.sp - 32)
  }

  /** The wrapper of the summing function at its RET: w0 holds the sum plus register 31 less 32; x1, x5, x30 and
      the flags have changed, and the frame. */
  ghost predicate SumWrapped(s: State, q: Program, n: u32, u: State)
    requires s.Valid() && InHost(s.sp, 8)
  {
    && |u.x| == 32
    && u == s.(pc := U64(q.base + 16), nzcv := u.nzcv, mem := s.mem.(ram := u.mem.ram),
               x := s.x[0 := Sum.Result(By(s.x[31], -32), n)][1 := u.x[1]][5 := 1][30 := Word64(s, s.sp)])
    && SameOutside(s.mem.ram, u.mem.ram, s.sp - 32 - RAM_BASE, s.sp - RAM_BASE)
  }

  /** The call of the function, back in the wrapper. */
  lemma SumComesBack(f: State -> Try<State>, s: State, q: Program, p: Program) returns (t: State)
    requires Emulates(f) && EntersSum(s, q, p)
    ensures Goes(f, Called(s, q, 32), Sum.StepCount(Sum.Argument(s)), t) && At(t, q, 2) && |t.x| == 32
    ensures
      var r := Sum.Result(By(s.x[31], -32), Sum.Argument(s));
      t == s.(pc := q.base + 8, nzcv := t.nzcv, mem := s.mem.(ram := t.mem.ram),
              x := s.x[31 := By(s.x[31], -32)][30 := q.base + 8][0 := r][1 := t.x[1]])
    ensures SameOutside(s.mem.ram, t.mem.ram, s.sp - 32 - RAM_BASE, s.sp - RAM_BASE)
    ensures SameBytes(s.mem.ram, t.mem.ram, s.sp - RAM_BASE, 8)
  {
    CodeInPlace(s, q, 32, p);
    t := Sum.SumRuns(f, Called(s, q, 32), p);
    StackOnly(s, q, 32, 32, t.mem.ram);
  }

  /** sum_test_enter computes the sum plus its entry value of register 31 less 32, so the right one exactly when the
      low word of register 31 is 32; from zero it is 32 too small.  It then goes to the word at its entry sp. */
  lemma SumWrapperRuns(f: State -> Try<State>, s: State, q: Program, p: Program) returns (u: State)
    requires Emulates(f) && EntersSum(s, q, p)
    ensures
      var n := Sum.Argument(s);
      Goes(f, s, Sum.StepCount(n) + 4, u) && SumWrapped(s, q, n, u) && LeavesBy(f, u, Word64(s, s.sp))
    ensures Sum.Result(By(s.x[31], -32), Sum.Argument(s)) == Sum.Triangle(Sum.Argument(s)) <==> s.x[31] % TWO32 == 32
    ensures s.x[31] == 0 ==> u.x[0] == W32(Sum.Triangle(Sum.Argument(s)) - 32)
  {
    var t := SumComesBack(f, s, q, p);
    Around(f, s, q, 32, Sum.StepCount(Sum.Argument(s)), t);
    u := AtRet(t, q, 32);
    BackAndForth(s.x[31], 32);
    SumRegisters(s.x, t.x, q.base + 8, t.x[0], t.x[1], Word64(s, s.sp));
    Sum.RightIff(By(s.x[31], -32), Sum.Argument(s));
    LowWordIs32(s.x[31]);
    Sum.AfterIndexedPush(Sum.Argument(s));
  }

  lemma SumRegisters(x: seq<u64>, y: seq<u64>, back: u64, r: u64, x1: u64, w: u64)
    requires |x| == 32 && y == x[31 := By(x[31], -32)][30 := back][0 := r][1 := x1] && By(By(x[31], -32), 32) == x[31]
    ensures y[5 := 1][30 := w][31 := By(y[31], 32)] == x[0 := r][1 := x1][5 := 1][30 := w]
  {
  }

  lemma LowWordIs32(v: u64)
    ensures W32(By(v, -32)) == 0 <==> v % TWO32 == 32
  {
  }

  // ----- the Fibonacci function -----

  /** The stack used by the call, or by the saved register. */
  function Deep(n: nat): nat { if n < 2 then 64 else Fibonacci.StackUse(n) }

  /** At fibonacci_test_enter, with the function behind it and enough stack for `n`, clear of the code. */
  ghost predicate EntersFibonacci(s: State, q: Program, p: Program, n: u32)
  {
    && IsWrapper(q, 64) && At(s, q, 0) && Fibonacci.IsFibonacci(p) && Placed(s.mem.ram, p) && p.base == q.base + 20
    && s.x[0] % TWO32 == n
    && RAM_BASE + Deep(n) <= s.sp && s.sp + 8 <= RAM_BASE + RAM_SIZE
    && (s.sp <= q.base || p.base + 4 * Fibonacci.WORDS <= s.sp - Deep(n))
  }

  /** The wrapper of the Fibonacci function at its RET: only w0, x5, x30, the flags and the stack have changed. */
  ghost predicate FibonacciWrapped(s: State, q: Program, n: u32, u: State)
    requires s.Valid() && InHost(s.sp, 8)
  {
    && u == s.(pc := U64(q.base + 16), nzcv := u.nzcv, mem := s.mem.(ram := u.mem.ram),
               x := s.x[0 := W32(Fibonacci.Fib(n))][5 := 1][30 := Word64(s, s.sp)])
    && SameOutside(s.mem.ram, u.mem.ram, s.sp - Deep(n) - RAM_BASE, s.sp - RAM_BASE)
  }

  lemma FibonacciComesBack(f: State -> Try<State>, s: State, q: Program, p: Program, n: u32) returns (t: State)
    requires Emulates(f) && EntersFibonacci(s, q, p, n)
    ensures Goes(f, Called(s, q, 64), Fibonacci.StepCount(n), t) && At(t, q, 2)
    ensures
      t == s.(pc := q.base + 8, nzcv := t.nzcv, mem := s.mem.(ram := t.mem.ram),
              x := s.x[31 := By(s.x[31], -64)][30 := q.base + 8][0 := W32(Fibonacci.Fib(n))])
    ensures SameOutside(s.mem.ram, t.mem.ram, s.sp - Deep(n) - RAM_BASE, s.sp - RAM_BASE)
    ensures SameBytes(s.mem.ram, t.mem.ram, s.sp - RAM_BASE, 8)
  {
    CodeInPlace(s, q, 64, p);
    t := Fibonacci.FibonacciRuns(f, Called(s, q, 64), p, n);
    StackOnly(s, q, 64, Deep(n), t.mem.ram);
  }

  /** fibonacci_test_enter computes the Fibonacci number, and goes to the word at its entry sp. */
  lemma FibonacciWrapperRuns(f: State -> Try<State>, s: State, q: Program, p: Program, n: u32) returns (u: State)
    requires Emulates(f) && EntersFibonacci(s, q, p, n)
    ensures Goes(f, s, Fibonacci.StepCount(n) + 4, u) && FibonacciWrapped(s, q, n, u)
    ensures LeavesBy(f, u, Word64(s, s.sp))
  {
    var t := FibonacciComesBack(f, s, q, p, n);
    Around(f, s, q, 64, Fibonacci.StepCount(n), t);
    u := AtRet(t, q, 64);
    BackAndForth(s.x[31], 64);
    FibonacciRegisters(s.x, t.x, q.base + 8, t.x[0], Word64(s, s.sp));
  }

  lemma FibonacciRegisters(x: seq<u64>, y: seq<u64>, back: u64, r: u64, w: u64)
    requires |x| == 32 && y == x[31 := By(x[31], -64)][30 := back][0 := r] && By(By(x[31], -64), 64) == x[31]
    ensures y[5 := 1][30 := w][31 := By(y[31], 64)] == x[0 := r][5 := 1][30 := w]
  {
  }
}
