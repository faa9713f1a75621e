/** The Linux tracer's rewrite of a pending execve (native/linux/rcc_seccomp.c): two strings and a pointer array put
    below the tracee's stack pointer, and two registers pointed at them. */
module ExecRewrite {
  import opened Bytes

  const NR_EXECVE: uint64 := 59
  const MAX_ARGV: nat := 1024
  const TWO47: nat := 0x8000_0000_0000
  const RED_ZONE: nat := 128
  /** "_spawn-proxy" */
  const SPAWN_PROXY: bytes := [95, 115, 112, 97, 119, 110, 45, 112, 114, 111, 120, 121]

  // ---- tracee memory -----------------------------------------------------------------------------------

  /** The mapped bytes of an address space. */
  type Memory = map<nat, byte>

  /** User addresses lie below 2^47, and nothing is mapped at 0. */
  ghost predicate UserSpace(m: Memory) { forall a :: a in m ==> 0 < a < TWO47 }

  predicate Mapped(m: Memory, a: nat, n: nat) { forall k :: a <= k < a + n ==> k in m }

  function Load(m: Memory, a: nat, n: nat): (b: bytes)
    requires Mapped(m, a, n)
    ensures |b| == n
  {
    seq(n, i requires 0 <= i < n => m[a + i])
  }

  /** Memory after `d` is written at `a`; only mapped bytes change. */
  function Patch(m: Memory, a: nat, d: bytes): Memory {
    map k | k in m :: if a <= k < a + |d| then d[k - a] else m[k]
  }

  lemma LoadPatched(m: Memory, a: nat, d: bytes, i: nat, n: nat)
    requires Mapped(m, a, |d|) && i + n <= |d|
    ensures Mapped(Patch(m, a, d), a + i, n)
    ensures Load(Patch(m, a, d), a + i, n) == d[i..i + n]
  {
  }

  // ---- words -------------------------------------------------------------------------------------------

  lemma LimitOfWord()
    ensures Limit(8) == TWO64
  {
    assert Limit(4) == TWO32;
    assert Limit(8) == 0x100 * 0x100 * 0x100 * 0x100 * Limit(4);
  }

  function Word(b: bytes): uint64
    requires |b| == 8
  {
    FromLEBound(b);
    LimitOfWord();
    FromLE(b)
  }

  lemma WordRoundTrip(n: uint64)
    ensures Word(LE(n, 8)) == n
  {
    hide LE, FromLE, Limit;
    LimitOfWord();
    LERoundTrip(n, 8);
  }

  function Words(ps: seq<uint64>): (b: bytes)
    ensures |b| == 8 * |ps|
  {
    if ps == [] then [] else LE(ps[0], 8) + Words(ps[1..])
  }

  lemma {:induction false} WordInWords(ps: seq<uint64>, i: nat)
    requires i < |ps|
    ensures Words(ps)[8 * i..8 * i + 8] == LE(ps[i], 8)
  {
    hide LE;
    if i > 0 {
      WordInWords(ps[1..], i - 1);
      assert Words(ps)[8 * i..8 * i + 8] == Words(ps[1..])[8 * (i - 1)..8 * (i - 1) + 8];
    }
  }

  // ---- walking argv ------------------------------------------------------------------------------------

  /** The pointers from `a` up to a NULL, as the kernel reads them; nothing if it hits an unmapped word first. */
  function Walk(m: Memory, a: nat): Option<seq<uint64>>
    decreases if a < TWO47 then TWO47 - a else 0
  {
    if a >= TWO47 || !Mapped(m, a, 8) then None
    else
      var p := Word(Load(m, a, 8));
      if p == 0 then Some([])
      else
        var rest :- Walk(m, a + 8);
        Some([p] + rest)
  }

  /** What the tracer reads: at most `max` pointers, up to a NULL or an unmapped word. */
  function Pointers(m: Memory, a: nat, max: nat): (ps: seq<uint64>)
    ensures |ps| <= max && forall i :: 0 <= i < |ps| ==> ps[i] != 0
    decreases max
  {
    if max == 0 || !Mapped(m, a, 8) then []
    else
      var p := Word(Load(m, a, 8));
      if p == 0 then [] else [p] + Pointers(m, a + 8, max - 1)
  }

  /** The NUL-terminated string at an address. */
  function CStr(m: Memory, a: nat): Option<bytes>
    decreases if a < TWO47 then TWO47 - a else 0
  {
    if a >= TWO47 || a !in m then None
    else if m[a] == 0 then Some([])
    else
      var rest :- CStr(m, a + 1);
      Some([m[a]] + rest)
  }

  /** The tracer sees the whole argv exactly when it has at most MAX_ARGV entries; a longer one is cut there. */
  lemma {:induction false} SeesWholeArgv(m: Memory, a: nat, max: nat)
    requires Walk(m, a).Some?
    ensures var args := Walk(m, a).value;
            Pointers(m, a, max) == (if |args| <= max then args else args[..max])
    decreases max
  {
    hide Word, Load, Mapped;
    if max > 0 && Word(Load(m, a, 8)) != 0 {
      SeesWholeArgv(m, a + 8, max - 1);
    }
  }

  lemma ArgvKeptIffShort(m: Memory, a: nat)
    requires Walk(m, a).Some?
    ensures Pointers(m, a, MAX_ARGV) == Walk(m, a).value <==> |Walk(m, a).value| <= MAX_ARGV
  {
    hide Walk, Pointers;
    SeesWholeArgv(m, a, MAX_ARGV);
  }

  lemma {:induction false} WalkFinds(m: Memory, a: nat, ps: seq<uint64>)
    requires UserSpace(m) && Mapped(m, a, 8 * |ps| + 8)
    requires forall i :: 0 <= i < |ps| ==> ps[i] != 0
    requires Load(m, a, 8 * |ps| + 8) == Words(ps + [0])
    ensures Walk(m, a) == Some(ps)
    decreases |ps|
  {
    hide LE, Word;
    var all := ps + [0];
    assert Load(m, a, 8) == Words(all)[..8] == LE(all[0], 8);
    WordRoundTrip(all[0]);
    assert a in m;
    if ps != [] {
      assert all[1..] == ps[1..] + [0];
      assert Load(m, a + 8, 8 * |ps[1..]| + 8) == Words(all)[8..];
      WalkFinds(m, a + 8, ps[1..]);
      assert ps == [ps[0]] + ps[1..];
    }
  }

  lemma {:induction false} CStrFinds(m: Memory, a: nat, s: bytes)
    requires UserSpace(m) && 0 !in s && Mapped(m, a, |s| + 1) && Load(m, a, |s| + 1) == s + [0]
    ensures CStr(m, a) == Some(s)
    decreases |s|
  {
    assert a in m;
    assert m[a] == Load(m, a, |s| + 1)[0];
    if s != [] {
      assert Load(m, a + 1, |s[1..]| + 1) == Load(m, a, |s| + 1)[1..] == s[1..] + [0];
      assert s[0] in s;
      CStrFinds(m, a + 1, s[1..]);
      assert s == [s[0]] + s[1..];
    }
  }

  lemma {:induction false} CStrKept(m: Memory, a: nat, at: nat, d: bytes)
    requires CStr(m, a).Some? && (a + |CStr(m, a).value| < at || at + |d| <= a)
    ensures CStr(Patch(m, at, d), a) == CStr(m, a)
    decreases |CStr(m, a).value|
  {
    assert Patch(m, at, d)[a] == m[a];
    if m[a] != 0 {
      CStrKept(m, a + 1, at, d);
    }
  }

  // ---- the rewrite -------------------------------------------------------------------------------------

  datatype Regs = Regs(origRax: uint64, rdi: uint64, rsi: uint64, rdx: uint64, rsp: uint64)

  function AlignDown(n: nat, k: nat): nat
    requires k > 0
  {
    n - n % k
  }

  /** The scratch region of a rewrite: where it starts, the pointers it holds and its bytes. */
  datatype Layout = Layout(scratch: uint64, arrAt: nat, ptrs: seq<uint64>, image: bytes)

  function Scratch(rsp: uint64): uint64 { AlignDown((rsp - 0x4000) % 0x1_0000_0000_0000_0000, 16) }

  function ArrayOffset(proxy: bytes): nat { AlignDown(|proxy| + 1 + |SPAWN_PROXY| + 1 + 7, 8) }

  function Strings(proxy: bytes): bytes { proxy + [0] + SPAWN_PROXY + [0] }

  function Padding(proxy: bytes): bytes { seq(ArrayOffset(proxy) - |Strings(proxy)|, _ => 0) }

  function U64Add(a: uint64, n: nat): uint64 { (a + n) % 0x1_0000_0000_0000_0000 }

  function NewPointers(r: Regs, proxy: bytes, args: seq<uint64>): seq<uint64> {
    [Scratch(r.rsp), U64Add(Scratch(r.rsp), |proxy| + 1), r.rdi] + args
  }

  function Image(r: Regs, proxy: bytes, args: seq<uint64>): bytes {
    Strings(proxy) + Padding(proxy) + Words(NewPointers(r, proxy, args) + [0])
  }

  function RewrittenRegs(r: Regs, proxy: bytes): Regs {
    r.(rdi := Scratch(r.rsp), rsi := U64Add(Scratch(r.rsp), ArrayOffset(proxy)))
  }

  lemma ImageSize(r: Regs, proxy: bytes, args: seq<uint64>)
    ensures |Image(r, proxy, args)| == ArrayOffset(proxy) + 8 * (|args| + 4)
    ensures ArrayOffset(proxy) % 8 == 0 && |Strings(proxy)| <= ArrayOffset(proxy) < |Strings(proxy)| + 8
  {
    hide Words;
    OffsetSize(proxy);
  }

  lemma OffsetSize(proxy: bytes)
    ensures ArrayOffset(proxy) % 8 == 0 && |Strings(proxy)| == |proxy| + 14
    ensures |Strings(proxy)| <= ArrayOffset(proxy) < |Strings(proxy)| + 8
  {
  }

  /** The scratch region fits between the array's start and the red zone, for every proxy path below 4096 bytes. */
  lemma BelowRedZone(r: Regs, proxy: bytes, args: seq<uint64>)
    requires |args| <= MAX_ARGV && |proxy| < 4096 && 0x4000 <= r.rsp
    ensures Scratch(r.rsp) + |Image(r, proxy, args)| + RED_ZONE <= r.rsp
    ensures Scratch(r.rsp) % 16 == 0
  {
    hide Image;
    ImageSize(r, proxy, args);
  }

  lemma MappedScratch(m: Memory, r: Regs, n: nat)
    requires UserSpace(m) && Mapped(m, Scratch(r.rsp), n) && n > 0
    ensures 0 < Scratch(r.rsp) && Scratch(r.rsp) + n <= TWO47 && 0x4000 <= r.rsp
    ensures forall k :: 0 <= k < n ==> U64Add(Scratch(r.rsp), k) == Scratch(r.rsp) + k
  {
    hide Scratch, U64Add;
    assert Scratch(r.rsp) in m;
    assert Scratch(r.rsp) + n - 1 in m;
    ScratchValue(r.rsp);
    forall k | 0 <= k < n
      ensures U64Add(Scratch(r.rsp), k) == Scratch(r.rsp) + k
    {
      NoWrap(Scratch(r.rsp), k);
    }
  }

  lemma NoWrap(a: uint64, k: nat)
    ensures a + k < TWO64 ==> U64Add(a, k) == a + k
  {
  }

  /** A stack pointer too small for the subtraction wraps to the top of the address space, where nothing is mapped. */
  lemma ScratchValue(rsp: uint64)
    ensures rsp < 0x4000 ==> Scratch(rsp) >= TWO47
    ensures rsp >= 0x4000 ==> rsp - 0x4000 - 16 < Scratch(rsp) <= rsp - 0x4000
  {
  }

  lemma ImageParts(r: Regs, proxy: bytes, args: seq<uint64>)
    ensures var im, n, o := Image(r, proxy, args), |proxy|, ArrayOffset(proxy);
            && n + 14 <= o <= |im|
            && im[..n + 1] == proxy + [0] && im[n + 1..n + 14] == SPAWN_PROXY + [0]
            && im[o..] == Words(NewPointers(r, proxy, args) + [0])
  {
    hide Words, NewPointers;
    var im, n := Image(r, proxy, args), |proxy|;
    ImageSize(r, proxy, args);
    var s := proxy + [0] + (SPAWN_PROXY + [0]);
    assert Strings(proxy) == s;
    assert im[..n + 1] == s[..n + 1] && im[n + 1..n + 14] == s[n + 1..];
  }

  /** After the rewrite, walking memory from the new rsi yields the proxy, "_spawn-proxy", the original path pointer
      and the original arguments, NULL-terminated; the pointer array is 8-aligned and everything written lies below
      the red zone; no other byte of memory and no other register has changed. */
  lemma ArgvAfterRewrite(m: Memory, r: Regs, proxy: bytes)
    requires UserSpace(m) && r.rdi != 0 && 0 !in proxy
    requires var im := Image(r, proxy, Pointers(m, r.rsi, MAX_ARGV)); Mapped(m, Scratch(r.rsp), |im|)
    ensures var args := Pointers(m, r.rsi, MAX_ARGV);
            var im := Image(r, proxy, args);
            var m', r' := Patch(m, Scratch(r.rsp), im), RewrittenRegs(r, proxy);
            var proxyAt, spawnAt := Scratch(r.rsp), Scratch(r.rsp) + |proxy| + 1;
            && Walk(m', r'.rsi) == Some([proxyAt, spawnAt, r.rdi] + args)
            && r'.rdi == proxyAt && CStr(m', proxyAt) == Some(proxy) && CStr(m', spawnAt) == Some(SPAWN_PROXY)
            && r'.rsi % 8 == 0 && (|proxy| < 4096 ==> Scratch(r.rsp) + |im| + RED_ZONE <= r.rsp)
            && m'.Keys == m.Keys
            && (forall a :: a in m && !(proxyAt <= a < proxyAt + |im|) ==> m'[a] == m[a])
            && r' == r.(rdi := r'.rdi, rsi := r'.rsi)
  {
    hide Words, Pointers, Walk, CStr, Load, Patch, NewPointers, Mapped, UserSpace, Image, Scratch, ArrayOffset;
    var args := Pointers(m, r.rsi, MAX_ARGV);
    var im, s := Image(r, proxy, args), Scratch(r.rsp);
    var m', o := Patch(m, s, im), ArrayOffset(proxy);
    ImageSize(r, proxy, args);
    MappedScratch(m, r, |im|);
    assert |proxy| < 4096 ==> s + |im| + RED_ZONE <= r.rsp by {
      if |proxy| < 4096 {
        BelowRedZone(r, proxy, args);
      }
    }
    ScratchIsAligned(r);
    PatchKeepsRest(m, s, im);
    StringsAfterRewrite(m, r, proxy, args);
    ArrayAfterRewrite(m, r, proxy, args);
  }

  lemma ScratchIsAligned(r: Regs)
    ensures Scratch(r.rsp) % 8 == 0
  {
    hide AlignDown;
    Aligned((r.rsp - 0x4000) % 0x1_0000_0000_0000_0000);
  }

  lemma Aligned(n: nat)
    ensures AlignDown(n, 16) % 8 == 0
  {
    assert n - n % 16 == 8 * (2 * (n / 16));
  }

  lemma PatchStaysUser(m: Memory, a: nat, d: bytes)
    requires UserSpace(m)
    ensures UserSpace(Patch(m, a, d)) && Patch(m, a, d).Keys == m.Keys
  {
  }

  lemma PatchKeepsRest(m: Memory, a: nat, d: bytes)
    ensures Patch(m, a, d).Keys == m.Keys
    ensures forall k :: k in m && !(a <= k < a + |d|) ==> Patch(m, a, d)[k] == m[k]
  {
  }

  lemma StringsAfterRewrite(m: Memory, r: Regs, proxy: bytes, args: seq<uint64>)
    requires UserSpace(m) && 0 !in proxy && Mapped(m, Scratch(r.rsp), |Image(r, proxy, args)|)
    ensures var m' := Patch(m, Scratch(r.rsp), Image(r, proxy, args));
            && CStr(m', Scratch(r.rsp)) == Some(proxy)
            && CStr(m', Scratch(r.rsp) + |proxy| + 1) == Some(SPAWN_PROXY)
  {
    hide Words, CStr, Load, Patch, NewPointers, Mapped, UserSpace, Image, Scratch, ArrayOffset;
    var im, s, n := Image(r, proxy, args), Scratch(r.rsp), |proxy|;
    var m' := Patch(m, s, im);
    PatchStaysUser(m, s, im);
    ImageParts(r, proxy, args);
    LoadPatched(m, s, im, 0, n + 1);
    assert im[0..n + 1] == im[..n + 1];
    CStrFinds(m', s, proxy);
    LoadPatched(m, s, im, n + 1, 13);
    assert s + (n + 1) == s + n + 1;
    CStrFinds(m', s + n + 1, SPAWN_PROXY);
  }

  lemma ArrayAfterRewrite(m: Memory, r: Regs, proxy: bytes, args: seq<uint64>)
    requires UserSpace(m) && r.rdi != 0 && (forall i :: 0 <= i < |args| ==> args[i] != 0)
    requires Mapped(m, Scratch(r.rsp), |Image(r, proxy, args)|)
    ensures Walk(Patch(m, Scratch(r.rsp), Image(r, proxy, args)), Scratch(r.rsp) + ArrayOffset(proxy))
         == Some([Scratch(r.rsp), Scratch(r.rsp) + |proxy| + 1, r.rdi] + args)
  {
    hide Words, Walk, Load, Patch, Mapped, UserSpace, Image, Scratch, ArrayOffset, U64Add;
    var im, s, o := Image(r, proxy, args), Scratch(r.rsp), ArrayOffset(proxy);
    var m' := Patch(m, s, im);
    ImageSize(r, proxy, args);
    ImageParts(r, proxy, args);
    MappedScratch(m, r, |im|);
    PatchStaysUser(m, s, im);
    var ps := NewPointers(r, proxy, args);
    assert U64Add(s, |proxy| + 1) == s + (|proxy| + 1);
    LoadPatched(m, s, im, o, |im| - o);
    assert im[o..o + (|im| - o)] == im[o..];
    WalkFinds(m', s + o, ps);
  }

  /** The path and argument strings are still there, as long as they do not lie in the scratch region. */
  lemma StringsSurvive(m: Memory, r: Regs, proxy: bytes, args: seq<uint64>, a: nat)
    requires CStr(m, a).Some?
    requires a + |CStr(m, a).value| < Scratch(r.rsp) || Scratch(r.rsp) + |Image(r, proxy, args)| <= a
    ensures CStr(Patch(m, Scratch(r.rsp), Image(r, proxy, args)), a) == CStr(m, a)
  {
    hide CStr, Patch, Image, Scratch;
    CStrKept(m, a, Scratch(r.rsp), Image(r, proxy, args));
  }

  /** The argument strings an address space holds at `a`. */
  ghost predicate ArgvIs(m: Memory, a: nat, argv: seq<bytes>) {
    && Walk(m, a).Some? && |Walk(m, a).value| == |argv|
    && forall i :: 0 <= i < |argv| ==> CStr(m, Walk(m, a).value[i]) == Some(argv[i])
  }

  /** A string that the scratch region does not touch. */
  ghost predicate Clear(m: Memory, r: Regs, proxy: bytes, args: seq<uint64>, a: nat) {
    && CStr(m, a).Some?
    && (a + |CStr(m, a).value| < Scratch(r.rsp) || Scratch(r.rsp) + |Image(r, proxy, args)| <= a)
  }

  /** The rewritten execve runs the proxy on the original command and its arguments, all of them in order, exactly when
      there are at most MAX_ARGV of them. */
  lemma RewriteWrapsCommand(m: Memory, r: Regs, proxy: bytes, path: bytes, argv: seq<bytes>)
    requires UserSpace(m) && r.rdi != 0 && 0 !in proxy && ArgvIs(m, r.rsi, argv) && CStr(m, r.rdi) == Some(path)
    requires var args := Pointers(m, r.rsi, MAX_ARGV);
             && Mapped(m, Scratch(r.rsp), |Image(r, proxy, args)|)
             && Clear(m, r, proxy, args, r.rdi)
             && forall i :: 0 <= i < |args| ==> Clear(m, r, proxy, args, args[i])
    ensures var m' := Patch(m, Scratch(r.rsp), Image(r, proxy, Pointers(m, r.rsi, MAX_ARGV)));
            ArgvIs(m', RewrittenRegs(r, proxy).rsi, [proxy, SPAWN_PROXY, path] + argv) <==> |argv| <= MAX_ARGV
  {
    hide Walk, CStr, Pointers, Image, Scratch, Patch, Mapped, UserSpace, RewrittenRegs;
    var args := Pointers(m, r.rsi, MAX_ARGV);
    var m' := Patch(m, Scratch(r.rsp), Image(r, proxy, args));
    ArgvAfterRewrite(m, r, proxy);
    SeesWholeArgv(m, r.rsi, MAX_ARGV);
    StringsSurvive(m, r, proxy, args, r.rdi);
    forall i | 0 <= i < |args|
      ensures CStr(m', args[i]) == Some(argv[i])
    {
      StringsSurvive(m, r, proxy, args, args[i]);
    }
  }

  // ---- the tracer's code -------------------------------------------------------------------------------

  datatype Verdict = LeftAlone | WriteFailed | RegsFailed | Rewritten

  class Tracee {
    var mem: Memory
    var regs: Regs

    constructor (mem: Memory, regs: Regs)
      ensures this.mem == mem && this.regs == regs
    {
      this.mem, this.regs := mem, regs;
    }

    /** An 8-byte process_vm_readv, which counts only when all 8 bytes were there. */
    method ReadWord(a: nat) returns (ok: bool, p: uint64)
      ensures ok == Mapped(mem, a, 8)
      ensures ok ==> p == Word(Load(mem, a, 8))
    {
      hide Word;
      ok := Mapped(mem, a, 8);
      p := if ok then Word(Load(mem, a, 8)) else 0;
    }

    /** process_vm_writev: writes everything if the whole range is mapped, otherwise some mapped prefix. */
    method Write(a: nat, d: bytes) returns (n: nat)
      modifies this`mem
      ensures n <= |d| && mem == Patch(old(mem), a, d[..n])
      ensures n == |d| <==> Mapped(old(mem), a, |d|)
    {
      if Mapped(mem, a, |d|) {
        n := |d|;
      } else {
        assert Mapped(mem, a, 0) && |d| > 0;
        n :| 0 <= n < |d| && Mapped(mem, a, n);
      }
      mem := Patch(mem, a, d[..n]);
    }

    /** PTRACE_SETREGSET, which may fail. */
    method SetRegs(r: Regs) returns (ok: bool)
      modifies this`regs
      ensures regs == if ok then r else old(regs)
    {
      ok := *;
      if ok {
        regs := r;
      }
    }

    method ReadArgv() returns (argv: array<uint64>, n: nat)
      ensures fresh(argv) && argv.Length == MAX_ARGV && n <= MAX_ARGV
      ensures argv[..n] == Pointers(mem, regs.rsi, MAX_ARGV)
    {
      hide Word, Load, Mapped, Pointers;
      argv := new uint64[MAX_ARGV];
      n := 0;
      ghost var all := Pointers(mem, regs.rsi, MAX_ARGV);
      assert argv[..0] + all == all;
      while n < MAX_ARGV
        invariant n <= MAX_ARGV
        invariant argv[..n] + Pointers(mem, regs.rsi + 8 * n, MAX_ARGV - n) == all
      {
        OneMorePointer(mem, regs.rsi + 8 * n, MAX_ARGV - n, argv[..n]);
        var ok, p := ReadWord(regs.rsi + 8 * n);
        if !ok || p == 0 {
          return;
        }
        Put(argv, n, p);
        n := n + 1;
      }
      NoMorePointers(mem, regs.rsi + 8 * n, argv[..n]);
    }

    /** Rewrites a pending execve that routes to the executor. `remote` is the routing verdict. */
    method RewriteExecve(proxy: bytes, remote: bool) returns (v: Verdict)
      requires UserSpace(mem)
      modifies this
      ensures var im := Image(old(regs), proxy, old(Pointers(mem, regs.rsi, MAX_ARGV)));
              var wanted := old(regs).origRax == NR_EXECVE && old(regs).rdi in old(mem) && proxy != [] && remote;
              && (v.LeftAlone? <==> !wanted)
              && (v.LeftAlone? ==> mem == old(mem))
              && (v.WriteFailed? <==> wanted && !Mapped(old(mem), Scratch(old(regs).rsp), |im|))
              && (v.WriteFailed? ==>
                    exists k :: 0 <= k < |im| && mem == Patch(old(mem), Scratch(old(regs).rsp), im[..k]))
              && (v.RegsFailed? || v.Rewritten? ==> mem == Patch(old(mem), Scratch(old(regs).rsp), im))
      ensures regs == if v.Rewritten? then RewrittenRegs(old(regs), proxy) else old(regs)
    {
      hide Word, Load, Mapped, Pointers, Image, Patch, Scratch;
      if regs.origRax != NR_EXECVE {
        return LeftAlone;
      }
      if regs.rdi !in mem {
        return LeftAlone;
      }
      var argv, n := ReadArgv();
      if proxy == [] || !remote {
        return LeftAlone;
      }
      var scratch := Scratch(regs.rsp);
      var buf, arrayOffset := Assemble(proxy, argv, n);
      ghost var im := Image(regs, proxy, argv[..n]);
      var written := Write(scratch, buf[..]);
      assert buf[..] == im;
      if written != buf.Length {
        return WriteFailed;
      }
      assert im[..written] == im;
      var ok := SetRegs(regs.(rdi := scratch, rsi := U64Add(scratch, arrayOffset)));
      v := if ok then Rewritten else RegsFailed;
    }

    /** Builds the scratch region in one zeroed buffer. */
    method Assemble(proxy: bytes, argv: array<uint64>, n: nat) returns (buf: array<byte>, off: nat)
      requires n <= argv.Length
      ensures fresh(buf) && off == ArrayOffset(proxy) && buf[..] == Image(regs, proxy, argv[..n])
    {
      hide Words, U64Add, Scratch, AlignDown, Strings, Padding, PutAt;
      var scratch := Scratch(regs.rsp);
      var proxyAt := scratch;
      off := |proxy| + 1;
      var spawnAt := U64Add(scratch, off);
      off := off + |SPAWN_PROXY| + 1;
      off := AlignDown(off + 7, 8);
      var arr := [proxyAt, spawnAt, regs.rdi] + argv[..n] + [0];
      assert arr == NewPointers(regs, proxy, argv[..n]) + [0];
      var region := off + 8 * |arr|;
      buf := new byte[region](_ => 0);
      Fill(buf, proxy, off, Words(arr));
    }
  }

  /** The three copies into the zeroed buffer. */
  method Fill(buf: array<byte>, proxy: bytes, off: nat, words: bytes)
    requires off == ArrayOffset(proxy) && buf.Length == off + |words| && forall i :: 0 <= i < buf.Length ==> buf[i] == 0
    modifies buf
    ensures buf[..] == Strings(proxy) + Padding(proxy) + words
  {
    hide ArrayOffset, Strings, Padding, PutAt;
    assert buf[..] == seq(off + |words|, _ => 0);
    Assembled(proxy, words);
    Copy(buf, 0, proxy + [0]);
    Copy(buf, |proxy| + 1, SPAWN_PROXY + [0]);
    Copy(buf, off, words);
  }

  method Copy(buf: array<byte>, at: nat, d: bytes)
    requires at + |d| <= buf.Length
    modifies buf
    ensures buf[..] == PutAt(old(buf[..]), at, d)
  {
    ghost var was := buf[..];
    CopyInto(buf, at, d);
    assert buf[..] == buf[..at] + buf[at..at + |d|] + buf[at + |d|..];
    assert was[..at] == old(buf[..at]) && was[at + |d|..] == old(buf[at + |d|..]);
  }

  function PutAt(b: bytes, at: nat, d: bytes): bytes
    requires at + |d| <= |b|
  {
    b[..at] + d + b[at + |d|..]
  }

  lemma Assembled(proxy: bytes, words: bytes)
    ensures |proxy| + 14 <= ArrayOffset(proxy)
    ensures var zeros := seq(ArrayOffset(proxy) + |words|, _ => 0);
            PutAt(PutAt(PutAt(zeros, 0, proxy + [0]), |proxy| + 1, SPAWN_PROXY + [0]), ArrayOffset(proxy), words)
            == Strings(proxy) + Padding(proxy) + words
  {
    hide ArrayOffset;
    OffsetSize(proxy);
    var n, o := |proxy|, ArrayOffset(proxy);
    var zeros: bytes := seq(o + |words|, _ => 0);
    var one := PutAt(zeros, 0, proxy + [0]);
    assert one == (proxy + [0]) + zeros[n + 1..];
    var two := PutAt(one, n + 1, SPAWN_PROXY + [0]);
    assert one[..n + 1] == proxy + [0] && one[n + 14..] == zeros[n + 14..];
    assert proxy + [0] + (SPAWN_PROXY + [0]) == Strings(proxy);
    assert two == Strings(proxy) + zeros[n + 14..];
    assert two[..o] == Strings(proxy) + zeros[n + 14..o];
    assert zeros[n + 14..o] == Padding(proxy);
    assert PutAt(two, o, words) == two[..o] + words;
  }

  /** The loop's step: the words copied and those still to come stay the same list. */
  lemma OneMorePointer(m: Memory, a: nat, max: nat, done: seq<uint64>)
    requires max > 0
    ensures done + Pointers(m, a, max)
         == if !Mapped(m, a, 8) || Word(Load(m, a, 8)) == 0 then done
            else done + [Word(Load(m, a, 8))] + Pointers(m, a + 8, max - 1)
  {
    hide Word, Load, Mapped;
    if Mapped(m, a, 8) && Word(Load(m, a, 8)) != 0 {
      var p, more := Word(Load(m, a, 8)), Pointers(m, a + 8, max - 1);
      assert done + ([p] + more) == done + [p] + more;
    } else {
      assert done + [] == done;
    }
  }

  lemma NoMorePointers(m: Memory, a: nat, done: seq<uint64>)
    ensures done + Pointers(m, a, 0) == done
  {
    assert done + [] == done;
  }

  method Put(a: array<uint64>, n: nat, v: uint64)
    requires n < a.Length
    modifies a
    ensures a[..n + 1] == old(a[..n]) + [v]
  {
    a[n] := v;
  }
}
