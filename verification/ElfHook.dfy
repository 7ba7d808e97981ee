/** Rewriting the slots of a symbol: the hook of xh_elf.c over memory and page protections. */
module ElfHook {
  import opened Bits
  import opened Machine
  import opened Sleb128
  import opened PackedRelocs
  import opened ElfHash
  import opened Protect
  import opened Wrappers

  // ---- relocation kinds ----

  function JumpSlot(m: Machine): nat {
    match m case Arm => 22 case Arm64 => 1026 case X86 => 7 case X64 => 7
  }

  function GlobDat(m: Machine): nat {
    match m case Arm => 21 case Arm64 => 1025 case X86 => 6 case X64 => 6
  }

  function Absolute(m: Machine): nat {
    match m case Arm => 2 case Arm64 => 257 case X86 => 1 case X64 => 1
  }

  function SymOf(m: Machine, info: nat): nat {
    if WordBits(m) == 64 then info / 0x1_0000_0000 else info / 256
  }

  function TypeOf(m: Machine, info: nat): nat {
    if WordBits(m) == 64 then info % 0x1_0000_0000 else info % 256
  }

  // ---- protections of a word ----

  function FirstPage(addr: nat): nat { addr / PAGE_SIZE }

  function LastPage(addr: nat, bytes: nat): nat
    requires bytes > 0
  {
    (addr + bytes - 1) / PAGE_SIZE
  }

  const READ_WRITE := Prot(true, true, false)

  /** What every page of the word allows. */
  function Shared(prot: map<nat, Prot>, addr: nat, bytes: nat): Prot
    requires bytes > 0 && FirstPage(addr) in prot && LastPage(addr, bytes) in prot
  {
    var p, q := prot[FirstPage(addr)], prot[LastPage(addr, bytes)];
    Prot(p.r && q.r, p.w && q.w, p.x && q.x)
  }

  /** mprotect over the cover of the word. */
  function Repainted(prot: map<nat, Prot>, addr: nat, bytes: nat, p: Prot): map<nat, Prot>
    requires bytes > 0
  {
    map k | k in prot :: if FirstPage(addr) <= k <= LastPage(addr, bytes) then p else prot[k]
  }

  /** What one replacement leaves of the protections when no call fails. */
  function Settled(prot: map<nat, Prot>, addr: nat, bytes: nat): map<nat, Prot>
    requires bytes > 0 && FirstPage(addr) in prot && LastPage(addr, bytes) in prot
  {
    var p := Shared(prot, addr, bytes);
    if p == READ_WRITE then prot else Repainted(Repainted(prot, addr, bytes, READ_WRITE), addr, bytes, p)
  }

  /** A word over a read-only page and a page that allows everything leaves both read-only. */
  lemma StraddlingChanges()
    ensures var prot := map[0 := Prot(true, false, false), 1 := Prot(true, true, true)];
      var after := Settled(prot, 4094, 4); after[0] == after[1] == Prot(true, false, false) && after != prot
  {
    var prot := map[0 := Prot(true, false, false), 1 := Prot(true, true, true)];
    assert FirstPage(4094) == 0 && LastPage(4094, 4) == 1;
    assert Settled(prot, 4094, 4)[1] != prot[1];
  }

  ghost predicate OnePage(addr: nat, bytes: nat)
    requires bytes > 0
  {
    FirstPage(addr) == LastPage(addr, bytes)
  }

  /** A replacement restores every protection exactly when the word's pages agree, or need no change. */
  lemma RestoredExactly(prot: map<nat, Prot>, addr: nat, bytes: nat)
    requires 0 < bytes <= 8 && FirstPage(addr) in prot && LastPage(addr, bytes) in prot
    ensures Settled(prot, addr, bytes) == prot <==>
      prot[FirstPage(addr)] == prot[LastPage(addr, bytes)] || Shared(prot, addr, bytes) == Prot(true, true, false)
  {
    var a, b := FirstPage(addr), LastPage(addr, bytes);
    assert a <= b <= a + 1;
    if prot[a] == prot[b] {
      forall k | k in prot ensures Settled(prot, addr, bytes)[k] == prot[k] {}
    } else if Shared(prot, addr, bytes) != READ_WRITE {
      assert Settled(prot, addr, bytes)[a] == Settled(prot, addr, bytes)[b];
    }
  }

  /** A replacement at addr leaves the protections as they are. */
  ghost predicate Steady(prot: map<nat, Prot>, addr: nat, bytes: nat)
    requires bytes > 0
  {
    FirstPage(addr) in prot && LastPage(addr, bytes) in prot ==>
      prot[FirstPage(addr)] == prot[LastPage(addr, bytes)] || Shared(prot, addr, bytes) == READ_WRITE
  }

  ghost predicate AllSteady(prot: map<nat, Prot>, slots: seq<nat>, bytes: nat)
    requires bytes > 0
  {
    forall a <- slots :: Steady(prot, a, bytes)
  }

  lemma AlignedOnePage(addr: nat, bytes: nat)
    requires (bytes == 4 || bytes == 8) && addr % bytes == 0
    ensures OnePage(addr, bytes)
  {
    var p, r := addr / PAGE_SIZE, addr % PAGE_SIZE;
    assert addr == 4096 * p + r;
    if bytes == 4 {
      assert r == 4 * (addr / 4 - 1024 * p);
    } else {
      assert r == 8 * (addr / 8 - 512 * p);
    }
    ModUnique(addr + bytes - 1, p, 4096, r + bytes - 1);
  }

  /** Selected lines of the maps file that describe the pages. */
  ghost predicate Describes(lines: seq<Line>, pathname: Option<string>, prot: map<nat, Prot>) {
    && (forall a: nat :: Mapped(lines, pathname, a) <==> FirstPage(a) in prot)
    && forall a: nat, bit :: FirstPage(a) in prot ==> (Allows(lines, pathname, a, bit) <==> Has(prot[FirstPage(a)], bit))
  }

  /** What the scan of the maps file computes for a word is what its pages share. */
  lemma ScanReadsShared(lines: seq<Line>, pathname: Option<string>, prot: map<nat, Prot>, addr: nat, bytes: nat, p: Prot)
    requires 0 < bytes <= 8 && Describes(lines, pathname, prot)
    requires AllMapped(lines, pathname, addr, addr + bytes) && Common(lines, pathname, addr, addr + bytes, p)
    ensures FirstPage(addr) in prot && LastPage(addr, bytes) in prot && p == Shared(prot, addr, bytes)
  {
    hide Mapped, Allows;
    var last := addr + bytes - 1;
    assert Mapped(lines, pathname, addr) && Mapped(lines, pathname, last);
    forall bit ensures Has(p, bit) <==> Has(Shared(prot, addr, bytes), bit) {
      if Has(p, bit) {
        assert Allows(lines, pathname, addr, bit) && Allows(lines, pathname, last, bit);
      } else {
        var a :| addr <= a < addr + bytes && !Allows(lines, pathname, a, bit);
        assert Mapped(lines, pathname, a);
        assert FirstPage(a) == FirstPage(addr) || FirstPage(a) == FirstPage(last);
      }
    }
    assert Has(p, Read) == p.r && Has(p, Write) == p.w && Has(p, Exec) == p.x;
    var s := Shared(prot, addr, bytes);
    assert Has(s, Read) == s.r && Has(s, Write) == s.w && Has(s, Exec) == s.x;
  }

  /** The cover that mprotect is given holds exactly the word's pages. */
  lemma CoverIsPages(addr: nat, bytes: nat, a: nat)
    requires 0 < bytes <= 8
    ensures PageStart(addr) <= a < PageStart(addr) + PageCover(addr, bytes) <==> FirstPage(addr) <= FirstPage(a) <= LastPage(addr, bytes)
  {}

  // ---- what a hook does to memory ----

  datatype Status = Done | Invalid | NotInited | BadFormat | Refused | Fault

  /** Words by address, what *old_func holds, and how the run ended. */
  datatype Outcome = Outcome(mem: map<nat, nat>, oldFunc: Option<nat>, status: Status)

  /** What is asked of a hook: the library's base, whether *old_func is wanted, the new function. */
  datatype Request = Request(base: nat, keep: bool, newFunc: nat)

  /** One slot rewritten. */
  function PatchOne(s: Outcome, q: Request, a: nat): Outcome {
    if a < q.base then s.(status := BadFormat)
    else if a !in s.mem then s.(status := Fault)
    else if s.mem[a] == q.newFunc then s
    else s.(mem := s.mem[a := q.newFunc], oldFunc := if q.keep then Some(s.mem[a]) else s.oldFunc)
  }

  /** The slots of a list of addresses, rewritten one after the other until one fails. */
  function Patch(s: Outcome, q: Request, slots: seq<nat>): Outcome
    decreases slots
  {
    if slots == [] || s.status != Done then s else Patch(PatchOne(s, q, slots[0]), q, slots[1..])
  }

  lemma {:induction false} PatchAppend(s: Outcome, q: Request, xs: seq<nat>, ys: seq<nat>)
    ensures Patch(s, q, xs + ys) == Patch(Patch(s, q, xs), q, ys)
    decreases xs
  {
    hide PatchOne;
    if xs == [] {
      assert xs + ys == ys;
    } else if s.status == Done {
      assert (xs + ys)[1..] == xs[1..] + ys;
      PatchAppend(PatchOne(s, q, xs[0]), q, xs[1..], ys);
    }
  }

  /** Memory with the new function in every slot. */
  function Written(mem: map<nat, nat>, slots: seq<nat>, newFunc: nat): map<nat, nat> {
    map a | a in mem :: if a in slots then newFunc else mem[a]
  }

  /** What the last of the slots held that was not met before and did not hold the new function. */
  ghost function LastFresh(mem: map<nat, nat>, newFunc: nat, slots: seq<nat>): (v: Option<nat>)
    requires forall a <- slots :: a in mem
    ensures v.Some? ==> v.value != newFunc && exists a <- slots :: mem[a] == v.value
    ensures v.None? ==> forall a <- slots :: mem[a] == newFunc
  {
    if slots == [] then None
    else
      var before, a := slots[..|slots| - 1], slots[|slots| - 1];
      if a !in before && mem[a] != newFunc then Some(mem[a]) else LastFresh(mem, newFunc, before)
  }

  /** Slot k is met for the first time, and does not hold the new function. */
  predicate FreshAt(mem: map<nat, nat>, newFunc: nat, slots: seq<nat>, k: nat) {
    k < |slots| && slots[k] !in slots[..k] && slots[k] in mem && mem[slots[k]] != newFunc
  }

  /** It is the value of the last such slot. */
  lemma {:induction false} LastFreshIs(mem: map<nat, nat>, newFunc: nat, slots: seq<nat>, k: nat)
    requires (forall a <- slots :: a in mem) && FreshAt(mem, newFunc, slots, k)
    requires forall j: nat :: j > k ==> !FreshAt(mem, newFunc, slots, j)
    ensures LastFresh(mem, newFunc, slots) == Some(mem[slots[k]])
    decreases |slots|
  {
    var n := |slots| - 1;
    var before := slots[..n];
    if k < n {
      assert !FreshAt(mem, newFunc, slots, n);
      assert before[..k] == slots[..k];
      forall j: nat | j > k ensures !FreshAt(mem, newFunc, before, j) {
        assert j < n ==> before[..j] == slots[..j];
        assert !FreshAt(mem, newFunc, slots, j);
      }
      LastFreshIs(mem, newFunc, before, k);
    }
  }

  /** The slots before the first that is below the base or not mapped. */
  function GoodPrefix(mem: map<nat, nat>, base: nat, slots: seq<nat>): (g: seq<nat>)
    ensures |g| <= |slots| && g == slots[..|g|] && forall a <- g :: base <= a && a in mem
    ensures |g| < |slots| ==> slots[|g|] < base || slots[|g|] !in mem
  {
    if slots == [] || slots[0] < base || slots[0] !in mem then [] else [slots[0]] + GoodPrefix(mem, base, slots[1..])
  }

  /** A run rewrites the slots before the first bad one, which ends it: exactly these hold the new
      function afterwards, nothing else changes, and *old_func gets what a slot held before, never the
      new function. */
  lemma PatchMeans(s: Outcome, q: Request, slots: seq<nat>)
    requires s.status == Done
    ensures var t, good := Patch(s, q, slots), GoodPrefix(s.mem, q.base, slots);
      var freshValue := LastFresh(s.mem, q.newFunc, good);
      && t.mem == Written(s.mem, good, q.newFunc)
      && t.oldFunc == (if q.keep && freshValue.Some? then freshValue else s.oldFunc)
      && t.status == if |good| == |slots| then Done else if slots[|good|] < q.base then BadFormat else Fault
  {
    hide Patch, LastFresh;
    var good := GoodPrefix(s.mem, q.base, slots);
    var rest := slots[|good|..];
    assert slots == good + rest;
    PatchAppend(s, q, good, rest);
    PatchGood(s, q, good);
    var mid := Patch(s, q, good);
    if rest == [] {
      NoSlots(mid, q);
    } else {
      PatchBad(mid, q, rest);
    }
  }

  lemma PatchBad(s: Outcome, q: Request, slots: seq<nat>)
    requires s.status == Done && slots != [] && (slots[0] < q.base || slots[0] !in s.mem)
    ensures Patch(s, q, slots) == s.(status := if slots[0] < q.base then BadFormat else Fault)
  {
    var t := PatchOne(s, q, slots[0]);
    assert Patch(t, q, slots[1..]) == t;
  }

  lemma {:induction false} PatchGood(s: Outcome, q: Request, slots: seq<nat>)
    requires s.status == Done && forall a <- slots :: q.base <= a && a in s.mem
    ensures var t := Patch(s, q, slots);
      var freshValue := LastFresh(s.mem, q.newFunc, slots);
      && t.status == Done && t.mem == Written(s.mem, slots, q.newFunc)
      && t.oldFunc == if q.keep && freshValue.Some? then freshValue else s.oldFunc
  {
    hide Patch, PatchOne;
    if slots == [] {
      assert Written(s.mem, slots, q.newFunc) == s.mem;
      NoSlots(s, q);
    } else {
      var before, a := slots[..|slots| - 1], slots[|slots| - 1];
      assert slots == before + [a];
      assert a in slots && forall b <- before :: b in slots;
      PatchGood(s, q, before);
      PatchAppend(s, q, before, [a]);
      LastSlot(s, q, Patch(s, q, before), before, a);
    }
  }

  lemma NoSlots(s: Outcome, q: Request)
    ensures Patch(s, q, []) == s
  {}

  lemma LastSlot(s: Outcome, q: Request, t: Outcome, before: seq<nat>, a: nat)
    requires t.status == Done && t.mem == Written(s.mem, before, q.newFunc) && q.base <= a && a in s.mem
    ensures var u := Patch(t, q, [a]);
      && u.status == Done && u.mem == Written(s.mem, before + [a], q.newFunc)
      && u.oldFunc == if q.keep && a !in before && s.mem[a] != q.newFunc then Some(s.mem[a]) else t.oldFunc
  {
    var u := PatchOne(t, q, a);
    assert Patch(t, q, [a]) == u;
    assert u.mem == Written(s.mem, before + [a], q.newFunc);
  }

  /** Nothing is left to do: every slot before the first bad one holds the new function. */
  ghost predicate Idle(mem: map<nat, nat>, q: Request, slots: seq<nat>) {
    forall a <- GoodPrefix(mem, q.base, slots) :: mem[a] == q.newFunc
  }

  /** After a run nothing is left to do. */
  lemma PatchIdle(s: Outcome, q: Request, slots: seq<nat>)
    requires s.status == Done
    ensures Idle(Patch(s, q, slots).mem, q, slots)
  {
    hide Patch, LastFresh;
    PatchMeans(s, q, slots);
    SameGood(s.mem, Patch(s, q, slots).mem, q.base, slots);
  }

  lemma {:induction false} SameGood(mem: map<nat, nat>, mem': map<nat, nat>, base: nat, slots: seq<nat>)
    requires mem.Keys == mem'.Keys
    ensures GoodPrefix(mem, base, slots) == GoodPrefix(mem', base, slots)
  {
    assert forall a :: a in mem <==> a in mem.Keys;
    assert forall a :: a in mem' <==> a in mem'.Keys;
    if slots != [] { SameGood(mem, mem', base, slots[1..]); }
  }

  /** Rewriting once more changes nothing and ends the same way. */
  lemma PatchAgain(s: Outcome, q: Request, slots: seq<nat>)
    requires s.status == Done
    ensures var t := Patch(s, q, slots); Patch(t.(status := Done), q, slots) == t
  {
    hide Patch;
    var t := Patch(s, q, slots);
    var again := t.(status := Done);
    PatchMeans(s, q, slots);
    PatchIdle(s, q, slots);
    PatchMeans(again, q, slots);
    SameGood(s.mem, t.mem, q.base, slots);
    var good := GoodPrefix(t.mem, q.base, slots);
    assert Written(t.mem, good, q.newFunc) == t.mem;
    assert LastFresh(t.mem, q.newFunc, good).None?;
  }

  lemma {:induction false} GoodAppend(mem: map<nat, nat>, base: nat, xs: seq<nat>, ys: seq<nat>)
    ensures GoodPrefix(mem, base, xs) <= GoodPrefix(mem, base, xs + ys)
    ensures GoodPrefix(mem, base, xs) == xs ==> GoodPrefix(mem, base, xs + ys) == xs + GoodPrefix(mem, base, ys)
  {
    hide GoodPrefix;
    if xs == [] {
      assert xs + ys == ys;
    } else if base <= xs[0] && xs[0] in mem {
      var x, more := xs[0], xs[1..];
      assert (xs + ys)[1..] == more + ys;
      GoodAppend(mem, base, more, ys);
      GoodCons(mem, base, xs);
      GoodCons(mem, base, xs + ys);
      PrefixCons(x, GoodPrefix(mem, base, more), GoodPrefix(mem, base, more + ys));
      if GoodPrefix(mem, base, xs) == xs {
        assert ([x] + GoodPrefix(mem, base, more))[1..] == GoodPrefix(mem, base, more);
        assert [x] + (more + GoodPrefix(mem, base, ys)) == xs + GoodPrefix(mem, base, ys);
      }
    } else {
      GoodCons(mem, base, xs);
    }
  }

  lemma GoodCons(mem: map<nat, nat>, base: nat, slots: seq<nat>)
    requires slots != []
    ensures GoodPrefix(mem, base, slots) ==
      if slots[0] < base || slots[0] !in mem then [] else [slots[0]] + GoodPrefix(mem, base, slots[1..])
  {}

  lemma PrefixCons(x: nat, p: seq<nat>, r: seq<nat>)
    requires p <= r
    ensures [x] + p <= [x] + r
  {
    assert [x] + r == ([x] + p) + r[|p|..];
  }

  /** What is idle as a whole is idle in its parts, as far as a run gets. */
  lemma IdleParts(mem: map<nat, nat>, q: Request, xs: seq<nat>, ys: seq<nat>)
    requires Idle(mem, q, xs + ys)
    ensures Idle(mem, q, xs)
    ensures GoodPrefix(mem, q.base, xs) == xs ==> Idle(mem, q, ys)
  {
    GoodAppend(mem, q.base, xs, ys);
    var all, some := GoodPrefix(mem, q.base, xs + ys), GoodPrefix(mem, q.base, xs);
    forall a <- some ensures a in all {
      var k :| 0 <= k < |some| && some[k] == a;
      assert all[k] == a;
    }
  }

  /** A run that is not stopped has met good slots only. */
  lemma DoneIsGood(s: Outcome, q: Request, slots: seq<nat>)
    requires s.status == Done && Patch(s, q, slots).status == Done
    ensures GoodPrefix(s.mem, q.base, slots) == slots
  {
    hide Patch, LastFresh;
    PatchMeans(s, q, slots);
  }

  /** A run over the slots ended in end; a refused protection call stops it between two slots. */
  ghost predicate Reached(s: Outcome, q: Request, slots: seq<nat>, end: Outcome) {
    if end.status == Refused
    then exists n | 0 <= n <= |slots| :: Patch(s, q, slots[..n]) == end.(status := Done)
    else Patch(s, q, slots) == end
  }

  ghost predicate Unrefused(s: Outcome, q: Request, slots: seq<nat>, end: Outcome) {
    Reached(s, q, slots, end) && end.status != Refused
  }

  lemma ReachedNone(s: Outcome, q: Request)
    requires s.status == Done
    ensures Reached(s, q, [], s)
  {}

  lemma ReachedOne(s: Outcome, q: Request, a: nat, end: Outcome)
    requires s.status == Done
    requires if end.status == Refused then end == s.(status := Refused) else end == PatchOne(s, q, a)
    ensures Reached(s, q, [a], end)
  {
    if end.status == Refused {
      assert [a][..0] == [];
    } else {
      assert Patch(s, q, [a]) == PatchOne(s, q, a);
    }
  }

  lemma ReachedThen(s: Outcome, q: Request, xs: seq<nat>, mid: Outcome, ys: seq<nat>, end: Outcome)
    requires mid.status == Done && Reached(s, q, xs, mid) && Reached(mid, q, ys, end)
    ensures Reached(s, q, xs + ys, end)
  {
    hide Patch;
    if end.status == Refused {
      var n :| 0 <= n <= |ys| && Patch(mid, q, ys[..n]) == end.(status := Done);
      PatchAppend(s, q, xs, ys[..n]);
      assert (xs + ys)[..|xs| + n] == xs + ys[..n];
    } else {
      PatchAppend(s, q, xs, ys);
    }
  }

  /** A run that has stopped takes no notice of further slots. */
  lemma ReachedStop(s: Outcome, q: Request, xs: seq<nat>, end: Outcome, ys: seq<nat>)
    requires end.status != Done && Reached(s, q, xs, end)
    ensures Reached(s, q, xs + ys, end)
  {
    if end.status == Refused {
      var n :| 0 <= n <= |xs| && Patch(s, q, xs[..n]) == end.(status := Done);
      assert (xs + ys)[..n] == xs[..n];
    } else {
      PatchAppend(s, q, xs, ys);
    }
  }

  lemma IdleOne(mem: map<nat, nat>, q: Request, a: nat)
    ensures Idle(mem, q, [a]) <==> a < q.base || a !in mem || mem[a] == q.newFunc
  {
    assert [a][1..] == [];
    assert q.base <= a && a in mem ==> GoodPrefix(mem, q.base, [a]) == [a];
    if q.base <= a && a in mem { assert a in GoodPrefix(mem, q.base, [a]); }
  }

  lemma IdleBoth(mem: map<nat, nat>, q: Request, xs: seq<nat>, ys: seq<nat>)
    ensures Idle(mem, q, xs + ys) ==> Idle(mem, q, xs)
  {
    if Idle(mem, q, xs + ys) { IdleParts(mem, q, xs, ys); }
  }

  /** After a run over done that was not stopped, what comes next is idle if the whole is. */
  lemma IdleNext(s: Outcome, q: Request, done: seq<nat>, mid: Outcome, more: seq<nat>, rest: seq<nat>)
    requires s.status == Done && mid.status == Done && Reached(s, q, done, mid)
    ensures Idle(s.mem, q, done + more + rest) || Idle(s.mem, q, done + (more + rest)) ==> Idle(s.mem, q, more)
    ensures Idle(s.mem, q, done + more) ==> Idle(s.mem, q, more)
  {
    hide Patch, GoodPrefix, Idle;
    DoneIsGood(s, q, done);
    assert done + more + rest == done + (more + rest);
    if Idle(s.mem, q, done + (more + rest)) {
      IdleParts(s.mem, q, done, more + rest);
      IdleParts(s.mem, q, more, rest);
    }
    if Idle(s.mem, q, done + more) { IdleParts(s.mem, q, done, more); }
  }

  /** Words change only in slots and only to the new function; *old_func gets nothing but what a slot held
      before, and never the new function. */
  ghost predicate Harmless(s: Outcome, q: Request, slots: seq<nat>, t: Outcome) {
    && t.mem.Keys == s.mem.Keys
    && (forall a <- s.mem :: a in t.mem && (t.mem[a] == s.mem[a] || (a in slots && t.mem[a] == q.newFunc)))
    && (t.oldFunc == s.oldFunc ||
        (q.keep && exists a <- slots :: a in s.mem && s.mem[a] != q.newFunc && t.oldFunc == Some(s.mem[a])))
  }

  lemma Untouched(s: Outcome, q: Request)
    ensures forall status :: Harmless(s, q, [], s.(status := status))
  {}

  lemma PatchHarmless(s: Outcome, q: Request, slots: seq<nat>)
    requires s.status == Done
    ensures Harmless(s, q, slots, Patch(s, q, slots))
  {
    hide Patch, LastFresh;
    PatchMeans(s, q, slots);
    var good := GoodPrefix(s.mem, q.base, slots);
    forall a <- good ensures a in slots {
      var k :| 0 <= k < |good| && good[k] == a;
      assert slots[k] == a;
    }
  }

  /** This holds of every run, however it ends. */
  lemma ReachedHarmless(s: Outcome, q: Request, slots: seq<nat>, end: Outcome)
    requires s.status == Done && Reached(s, q, slots, end)
    ensures Harmless(s, q, slots, end)
  {
    hide Patch;
    if end.status == Refused {
      var n :| 0 <= n <= |slots| && Patch(s, q, slots[..n]) == end.(status := Done);
      PatchHarmless(s, q, slots[..n]);
    } else {
      PatchHarmless(s, q, slots);
    }
  }

  /** Where a run ended, the same run has nothing left to do and would end the same way. */
  lemma ReachedAgain(s: Outcome, q: Request, slots: seq<nat>, end: Outcome)
    requires s.status == Done && end.status != Refused && Reached(s, q, slots, end)
    ensures Idle(end.mem, q, slots) && Patch(end.(status := Done), q, slots) == end
  {
    hide Patch, Idle;
    PatchIdle(s, q, slots);
    PatchAgain(s, q, slots);
  }

  lemma ReachedOnly(s: Outcome, q: Request, slots: seq<nat>, end: Outcome, known: Outcome)
    requires end.status != Refused && Reached(s, q, slots, end) && Patch(s, q, slots) == known
    ensures end == known
  {
    hide Patch;
  }

  // ---- which slots a hook visits ----

  /** The entries of a plain section that the iterator stops at: as many as start before its end. */
  datatype Plain = Plain(entries: seq<Reloc>, size: nat)

  function EntrySize(m: Machine, rela: bool): (n: nat)
    ensures n > 0
  {
    (if rela then 3 else 2) * WordBytes(m)
  }

  function EntryCount(m: Machine, rela: bool, size: nat): nat {
    (size + EntrySize(m, rela) - 1) / EntrySize(m, rela)
  }

  datatype Hashes = SysV(sysv: SysVTable) | Gnu(gnu: GnuTable)

  /** What xh_elf_init found; a missing section is None. */
  datatype Elf = Elf(machine: Machine, inited: bool, base: nat, bias: nat, rela: bool, hashes: Hashes,
                     plt: Option<Plain>, dyn: Option<Plain>, android: Option<seq<byte>>)

  ghost predicate Fits(e: Elf, p: Option<Plain>) {
    p.Some? ==> EntryCount(e.machine, e.rela, p.value.size) <= |p.value.entries|
  }

  /** The sections lie in memory and the symbol table is sound. */
  ghost predicate Sound(e: Elf) {
    && Fits(e, e.plt) && Fits(e, e.dyn)
    && SoundHashes(e.hashes)
  }

  /** The relocations of a plain section. */
  function PlainListing(e: Elf, p: Option<Plain>): seq<Reloc>
    requires Fits(e, p)
  {
    if p.None? then [] else p.value.entries[..EntryCount(e.machine, e.rela, p.value.size)]
  }

  ghost function PackedList(e: Elf): seq<Reloc> {
    if e.android.None? then [] else Listing(WordBits(e.machine), e.rela, e.android.value)
  }

  /** A symbol to look for, in a library loaded at bias. */
  datatype Target = Target(machine: Machine, bias: nat, symidx: nat)

  /** A relocation entry that the hook of a symbol rewrites. */
  predicate Hooks(g: Target, plt: bool, r: Reloc) {
    var kind := TypeOf(g.machine, r.info);
    && SymOf(g.machine, r.info) == g.symidx
    && (if plt then kind == JumpSlot(g.machine) else kind == GlobDat(g.machine) || kind == Absolute(g.machine))
  }

  function SlotOf(g: Target, r: Reloc): nat {
    Word(WordBits(g.machine), g.bias + r.offset)
  }

  /** The slots of every matching entry. */
  function AllSlots(g: Target, rs: seq<Reloc>): seq<nat> {
    if rs == [] then []
    else (if Hooks(g, false, rs[0]) then [SlotOf(g, rs[0])] else []) + AllSlots(g, rs[1..])
  }

  /** The slot of the first matching entry. */
  function FirstSlot(g: Target, rs: seq<Reloc>): seq<nat> {
    if rs == [] then []
    else if Hooks(g, true, rs[0]) then [SlotOf(g, rs[0])]
    else FirstSlot(g, rs[1..])
  }

  ghost function Slots(e: Elf, symidx: nat): seq<nat>
    requires Sound(e)
  {
    var g := Target(e.machine, e.bias, symidx);
    FirstSlot(g, PlainListing(e, e.plt)) + (AllSlots(g, PlainListing(e, e.dyn)) + AllSlots(g, PackedList(e)))
  }

  lemma {:induction false} AllSlotsAppend(g: Target, xs: seq<Reloc>, ys: seq<Reloc>)
    ensures AllSlots(g, xs + ys) == AllSlots(g, xs) + AllSlots(g, ys)
  {
    if xs == [] {
      assert xs + ys == ys;
    } else {
      assert (xs + ys)[1..] == xs[1..] + ys;
      AllSlotsAppend(g, xs[1..], ys);
    }
  }

  /** When packed relocations are listed plainly behind those of the dynamic section instead, a hook
      visits the same slots in the same order, and, unless a protection call stops it, ends with the same
      memory, the same *old_func and the same status. */
  lemma PackedLikePlain(packed: Elf, plain: Elf, symidx: nat, start: nat, gs: seq<Group>)
    requires var w := WordBits(packed.machine);
      && Sound(packed) && Sound(plain) && start < Pow2(w) && |Flatten(gs)| < Pow2(w)
      && (forall g <- gs :: g.relocs != []) && Packable(w, packed.rela, start, 0, gs)
      && packed.android == Some(Pack(w, packed.rela, start, gs))
      && plain == packed.(dyn := plain.dyn, android := None)
      && PlainListing(plain, plain.dyn) == PlainListing(packed, packed.dyn) + Flatten(gs)
    ensures TersePacked(packed) && TersePacked(plain) && Slots(packed, symidx) == Slots(plain, symidx)
    ensures forall s, q, t, u ::
      Unrefused(s, q, Slots(packed, symidx), t) && Unrefused(s, q, Slots(plain, symidx), u) ==> t == u
  {
    hide Patch, Terse, Pow2, Pack, Packable, Flatten, Listing, AllSlots, FirstSlot, EntryCount, PlainListing;
    PackedListing(WordBits(packed.machine), packed.rela, start, gs);
    var g := Target(packed.machine, packed.bias, symidx);
    NothingListed(g);
    AllSlotsAppend(g, PlainListing(packed, packed.dyn), Flatten(gs));
    assert AllSlots(g, PlainListing(plain, plain.dyn)) + [] == AllSlots(g, PlainListing(plain, plain.dyn));
    SamePlt(packed, plain);
  }

  lemma SamePlt(e: Elf, f: Elf)
    requires Fits(e, e.plt) && f == e.(dyn := f.dyn, android := f.android)
    ensures PlainListing(e, e.plt) == PlainListing(f, f.plt)
  {}

  lemma NothingListed(g: Target)
    ensures AllSlots(g, []) == []
  {}

  // ---- what a hook means for the entries of the file ----

  /** The entry binds the symbol: its word info holds the symbol's index above the relocation's type,
      a jump slot in the linkage table and elsewhere a data slot or an absolute address. */
  predicate Binds(g: Target, plt: bool, r: Reloc) {
    match g.machine
    case Arm => var low := r.info - g.symidx * 0x100; if plt then low == 22 else low == 21 || low == 2
    case X86 => var low := r.info - g.symidx * 0x100; if plt then low == 7 else low == 6 || low == 1
    case Arm64 => var low := r.info - g.symidx * 0x1_0000_0000; if plt then low == 1026 else low == 1025 || low == 257
    case X64 => var low := r.info - g.symidx * 0x1_0000_0000; if plt then low == 7 else low == 6 || low == 1
  }

  /** Where the word is that the entry fills in. */
  function AddressOf(g: Target, r: Reloc): nat {
    if g.machine.Arm? || g.machine.X86? then (g.bias + r.offset) % 0x1_0000_0000
    else (g.bias + r.offset) % 0x1_0000_0000_0000_0000
  }

  lemma HooksExactly(g: Target, plt: bool, r: Reloc)
    ensures Hooks(g, plt, r) <==> Binds(g, plt, r)
    ensures SlotOf(g, r) == AddressOf(g, r)
  {
    hide Word, Pow2;
    WordIsRemainder(WordBits(g.machine), g.bias + r.offset);
    WordSizes();
  }

  lemma WordSizes()
    ensures Pow2(32) == 0x1_0000_0000 && Pow2(64) == 0x1_0000_0000_0000_0000
  {
    Places();
    Pow2Add(32, 32);
  }

  predicate BoundAt(g: Target, plt: bool, rs: seq<Reloc>, k: int) {
    0 <= k < |rs| && Binds(g, plt, rs[k])
  }

  /** The first entry of the linkage table that binds the symbol. */
  predicate FirstBound(g: Target, rs: seq<Reloc>, k: int) {
    BoundAt(g, true, rs, k) && forall j :: 0 <= j < k ==> !BoundAt(g, true, rs, j)
  }

  /** Address a is that of a data entry, or of the linkage table's first entry, that binds the symbol. */
  ghost predicate BoundTo(g: Target, plt: seq<Reloc>, data: seq<Reloc>, a: nat) {
    || (exists k :: FirstBound(g, plt, k) && AddressOf(g, plt[k]) == a)
    || (exists k :: BoundAt(g, false, data, k) && AddressOf(g, data[k]) == a)
  }

  /** What a hook that ends well has done: every word of an entry that binds the symbol holds the new
      function, and no other word has changed. */
  ghost predicate Rewired(g: Target, q: Request, plt: seq<Reloc>, data: seq<Reloc>, before: map<nat, nat>, after: map<nat, nat>) {
    && before.Keys == after.Keys
    && (forall a: nat :: BoundTo(g, plt, data, a) ==> a >= q.base && a in after && after[a] == q.newFunc)
    && forall a <- before :: !BoundTo(g, plt, data, a) ==> a in after && after[a] == before[a]
  }

  /** Why a hook ended: an entry that binds the symbol lies below the base, or where nothing is mapped. */
  ghost predicate Explained(g: Target, q: Request, plt: seq<Reloc>, data: seq<Reloc>, before: map<nat, nat>, status: Status) {
    && (status == BadFormat ==> exists a: nat :: a < q.base && BoundTo(g, plt, data, a))
    && (status == Fault ==> exists a: nat :: a !in before && BoundTo(g, plt, data, a))
    && (status == Done || status == BadFormat || status == Fault || status == Refused)
  }

  ghost predicate AsBound(g: Target, q: Request, plt: seq<Reloc>, data: seq<Reloc>, before: map<nat, nat>, after: map<nat, nat>, status: Status) {
    && (status == Done ==> Rewired(g, q, plt, data, before, after))
    && Explained(g, q, plt, data, before, status)
  }

  lemma {:induction false} AllSlotsAre(g: Target, rs: seq<Reloc>, a: nat)
    ensures a in AllSlots(g, rs) <==> exists k :: BoundAt(g, false, rs, k) && AddressOf(g, rs[k]) == a
  {
    hide Binds, AddressOf, Hooks, SlotOf;
    if rs != [] {
      var more := rs[1..];
      HooksExactly(g, false, rs[0]);
      AllSlotsAre(g, more, a);
      if k :| BoundAt(g, false, more, k) && AddressOf(g, more[k]) == a { assert BoundAt(g, false, rs, k + 1); }
      if k :| BoundAt(g, false, rs, k) && AddressOf(g, rs[k]) == a && k > 0 { assert BoundAt(g, false, more, k - 1); }
      if a in AllSlots(g, rs) && !(a in AllSlots(g, more)) { assert BoundAt(g, false, rs, 0); }
    }
  }

  lemma {:induction false} FirstSlotIs(g: Target, rs: seq<Reloc>, a: nat)
    ensures a in FirstSlot(g, rs) <==> exists k :: FirstBound(g, rs, k) && AddressOf(g, rs[k]) == a
  {
    hide Binds, AddressOf, Hooks, SlotOf;
    if rs != [] {
      var more := rs[1..];
      HooksExactly(g, true, rs[0]);
      FirstSlotIs(g, more, a);
      if Hooks(g, true, rs[0]) {
        assert FirstBound(g, rs, 0);
        assert forall k :: FirstBound(g, rs, k) ==> k == 0;
      } else {
        BoundLater(g, rs);
      }
    }
  }

  lemma BoundLater(g: Target, rs: seq<Reloc>)
    requires rs != [] && !Binds(g, true, rs[0])
    ensures forall k :: FirstBound(g, rs, k) ==> k > 0 && FirstBound(g, rs[1..], k - 1) && rs[1..][k - 1] == rs[k]
    ensures forall k :: FirstBound(g, rs[1..], k) ==> FirstBound(g, rs, k + 1) && rs[k + 1] == rs[1..][k]
  {
    hide Binds;
    var more := rs[1..];
    forall k | FirstBound(g, rs, k) ensures k > 0 && FirstBound(g, more, k - 1) && more[k - 1] == rs[k] {
      forall j | 0 <= j < k - 1 ensures !BoundAt(g, true, more, j) { assert !BoundAt(g, true, rs, j + 1); }
    }
    forall k | FirstBound(g, more, k) ensures FirstBound(g, rs, k + 1) {
      forall j | 0 <= j < k + 1 ensures !BoundAt(g, true, rs, j) { assert j > 0 ==> !BoundAt(g, true, more, j - 1); }
    }
  }

  lemma SlotsAre(g: Target, plt: seq<Reloc>, data: seq<Reloc>, a: nat)
    ensures a in FirstSlot(g, plt) + AllSlots(g, data) <==> BoundTo(g, plt, data, a)
  {
    hide FirstBound, BoundAt, AddressOf, FirstSlot, AllSlots;
    AllSlotsAre(g, data, a);
    FirstSlotIs(g, plt, a);
  }

  lemma AllWritten(g: Target, q: Request, plt: seq<Reloc>, data: seq<Reloc>, mem: map<nat, nat>, slots: seq<nat>)
    requires forall a <- slots :: q.base <= a && a in mem
    requires forall a: nat :: a in slots <==> BoundTo(g, plt, data, a)
    ensures Rewired(g, q, plt, data, mem, Written(mem, slots, q.newFunc))
  {
    hide BoundTo;
    var after := Written(mem, slots, q.newFunc);
    forall a: nat | BoundTo(g, plt, data, a) ensures a in after && after[a] == q.newFunc { assert a in slots; }
    forall a <- mem | !BoundTo(g, plt, data, a) ensures after[a] == mem[a] { assert a !in slots; }
    assert mem.Keys == after.Keys;
  }

  /** A run over the slots does this to the entries. */
  lemma RunAsBound(s: Outcome, q: Request, g: Target, plt: seq<Reloc>, data: seq<Reloc>, end: Outcome)
    requires s.status == Done && Reached(s, q, FirstSlot(g, plt) + AllSlots(g, data), end)
    ensures AsBound(g, q, plt, data, s.mem, end.mem, end.status)
  {
    hide Patch, BoundTo, FirstSlot, AllSlots, LastFresh, GoodPrefix;
    var slots := FirstSlot(g, plt) + AllSlots(g, data);
    forall a: nat ensures a in slots <==> BoundTo(g, plt, data, a) { SlotsAre(g, plt, data, a); }
    if end.status != Refused {
      PatchMeans(s, q, slots);
      assert end == Patch(s, q, slots);
      var good := GoodPrefix(s.mem, q.base, slots);
      if |good| < |slots| {
        assert slots[|good|] in slots;
      } else {
        assert good == slots;
        AllWritten(g, q, plt, data, s.mem, slots);
      }
    }
  }

  lemma PltAsBound(s: Outcome, q: Request, g: Target, plt: seq<Reloc>, end: Outcome)
    requires s.status == Done && Reached(s, q, FirstSlot(g, plt), end)
    ensures AsBound(g, q, plt, [], s.mem, end.mem, end.status)
  {
    hide Reached, AsBound, FirstSlot, AllSlots;
    NothingListed(g);
    assert FirstSlot(g, plt) + [] == FirstSlot(g, plt);
    RunAsBound(s, q, g, plt, [], end);
  }

  lemma DataAsBound(s: Outcome, q: Request, g: Target, data: seq<Reloc>, end: Outcome)
    requires s.status == Done && Reached(s, q, AllSlots(g, data), end)
    ensures AsBound(g, q, [], data, s.mem, end.mem, end.status)
  {
    hide Reached, AsBound, FirstSlot, AllSlots;
    FirstSlotNone(g, []);
    assert [] + AllSlots(g, data) == AllSlots(g, data);
    RunAsBound(s, q, g, [], data, end);
  }

  lemma HookAsBound(s: Outcome, q: Request, e: Elf, symidx: nat, end: Outcome)
    requires Sound(e) && s.status == Done && Reached(s, q, Slots(e, symidx), end)
    ensures AsBound(Target(e.machine, e.bias, symidx), q, PlainListing(e, e.plt), PlainListing(e, e.dyn) + PackedList(e),
                    s.mem, end.mem, end.status)
  {
    hide Reached, AsBound, FirstSlot, AllSlots, PlainListing, PackedList, SysVSafe, GnuSafe;
    var g := Target(e.machine, e.bias, symidx);
    AllSlotsAppend(g, PlainListing(e, e.dyn), PackedList(e));
    RunAsBound(s, q, g, PlainListing(e, e.plt), PlainListing(e, e.dyn) + PackedList(e), end);
  }

  /** A plain section lists the entries that start before its end. */
  lemma EntriesStartInside(m: Machine, rela: bool, size: nat, k: nat)
    ensures k < EntryCount(m, rela, size) <==>
      k * (match m case Arm => if rela then 12 else 8 case X86 => if rela then 12 else 8
                   case Arm64 => if rela then 24 else 16 case X64 => if rela then 24 else 16) < size
  {
    EntryAt(k, EntrySize(m, rela), size);
  }

  /** A jump slot and a data slot of symbol 5 in a library loaded at 0x7000_0000, the jump slot first. */
  lemma SlotsInOrder(e: Elf)
    requires Sound(e) && e.machine == X64 && e.rela && e.base == e.bias == 0x7000_0000
    requires e.plt == Some(Plain([Reloc(0x3f90, 0x5_0000_0007, 0)], 24))
    requires e.dyn == Some(Plain([Reloc(0x4000, 0x5_0000_0006, 0), Reloc(0x4008, 0x6_0000_0006, 0)], 48)) && e.android == None
    ensures Slots(e, 5) == [0x7000_3f90, 0x7000_4000]
  {
    hide Hooks, SlotOf, Sound;
    var g := Target(X64, 0x7000_0000, 5);
    var jump, data, other := Reloc(0x3f90, 0x5_0000_0007, 0), Reloc(0x4000, 0x5_0000_0006, 0), Reloc(0x4008, 0x6_0000_0006, 0);
    HooksExactly(g, true, jump);
    HooksExactly(g, false, data);
    HooksExactly(g, false, other);
    OneEntry(g, data);
    OneEntry(g, other);
    AllSlotsAppend(g, [data], [other]);
    NothingListed(g);
    FirstSlotHead(g, [jump]);
    assert PlainListing(e, e.plt) == [jump] && PlainListing(e, e.dyn) == [data] + [other] && PackedList(e) == [];
  }

  // ---- the process ----

  /** Memory words, the protection of each page, and whether a protection call has failed. */
  class Process {
    var mem: map<nat, nat>
    var prot: map<nat, Prot>
    ghost var failed: bool

    /** xh_util_get_addr_protect: it may fail, and does when a page is not mapped. */
    method GetProtect(addr: nat, bytes: nat) returns (ok: bool, p: Prot)
      requires bytes > 0
      modifies `failed
      ensures ok ==> failed == old(failed) && FirstPage(addr) in prot && LastPage(addr, bytes) in prot && p == Shared(prot, addr, bytes)
      ensures !ok ==> failed
    {
      ok := *;
      if ok && FirstPage(addr) in prot && LastPage(addr, bytes) in prot {
        p := Shared(prot, addr, bytes);
      } else {
        failed := true;
        ok, p := false, Prot(false, false, false);
      }
    }

    /** xh_util_set_addr_protect: mprotect may refuse, and may then have changed some of the pages. */
    method SetProtect(addr: nat, bytes: nat, p: Prot) returns (ok: bool)
      requires bytes > 0
      modifies `prot, `failed
      ensures ok ==> failed == old(failed) && prot == Repainted(old(prot), addr, bytes, p)
      ensures !ok ==> failed
      ensures prot.Keys == old(prot).Keys
      ensures forall k :: k in prot && !(FirstPage(addr) <= k <= LastPage(addr, bytes)) ==> prot[k] == old(prot)[k]
    {
      ok := *;
      if ok {
        prot := Repainted(prot, addr, bytes, p);
      } else {
        failed := true;
        var some: set<nat> := *;
        prot := map k | k in prot :: if FirstPage(addr) <= k <= LastPage(addr, bytes) && k in some then p else prot[k];
      }
    }

    /** xh_elf_replace_function. */
    method ReplaceFunction(addr: nat, bytes: nat, q: Request, oldFunc: Option<nat>) returns (status: Status, saved: Option<nat>)
      requires addr >= q.base && 0 < bytes <= 8
      modifies this
      ensures old(failed) ==> failed
      ensures status != Refused ==> Outcome(mem, saved, status) == PatchOne(Outcome(old(mem), oldFunc, Done), q, addr)
      ensures status == Refused ==> failed && mem == old(mem) && saved == oldFunc
      ensures !failed && status == Done && mem == old(mem) ==> prot == old(prot)
      ensures !failed && status == Done && mem != old(mem) ==>
        FirstPage(addr) in old(prot) && LastPage(addr, bytes) in old(prot) && prot == Settled(old(prot), addr, bytes)
      ensures prot.Keys == old(prot).Keys
      ensures forall k :: k in prot && !(FirstPage(addr) <= k <= LastPage(addr, bytes)) ==> prot[k] == old(prot)[k]
      ensures !failed && Steady(old(prot), addr, bytes) ==> prot == old(prot)
      ensures addr !in old(mem) || old(mem)[addr] == q.newFunc ==>
        mem == old(mem) && prot == old(prot) && failed == old(failed) && saved == oldFunc && status != Refused
    {
      saved := oldFunc;
      if addr !in mem { return Fault, saved; }
      if mem[addr] == q.newFunc { return Done, saved; }
      var ok, oldProt := GetProtect(addr, bytes);
      if !ok { return Refused, saved; }
      if oldProt != READ_WRITE {
        ok := SetProtect(addr, bytes, READ_WRITE);
        if !ok { return Refused, saved; }
      }
      if q.keep { saved := Some(mem[addr]); }
      assert prot[FirstPage(addr)].w && prot[LastPage(addr, bytes)].w;
      mem := mem[addr := q.newFunc];
      if oldProt != READ_WRITE {
        ok := SetProtect(addr, bytes, oldProt);
      }
      return Done, saved;
    }

    /** xh_elf_find_and_replace_func. */
    method FindAndReplace(g: Target, q: Request, plt: bool, r: Reloc, oldFunc: Option<nat>)
      returns (status: Status, found: bool, saved: Option<nat>)
      modifies this
      ensures old(failed) ==> failed
      ensures found <==> Binds(g, plt, r)
      ensures found ==> (status == BadFormat <==> AddressOf(g, r) < q.base)
      ensures found && status == Done ==> AddressOf(g, r) in old(mem) && mem == old(mem)[AddressOf(g, r) := q.newFunc]
      ensures found <==> Hooks(g, plt, r)
      ensures !found ==> status == Done && mem == old(mem) && prot == old(prot) && saved == oldFunc && failed == old(failed)
      ensures found && status != Refused ==>
        Outcome(mem, saved, status) == PatchOne(Outcome(old(mem), oldFunc, Done), q, SlotOf(g, r))
      ensures status == Refused ==> failed && mem == old(mem) && saved == oldFunc
      ensures prot.Keys == old(prot).Keys
      ensures !failed && (found ==> Steady(old(prot), SlotOf(g, r), WordBytes(g.machine))) ==> prot == old(prot)
      ensures found && Idle(old(mem), q, [SlotOf(g, r)]) ==>
        mem == old(mem) && prot == old(prot) && failed == old(failed) && saved == oldFunc && status != Refused
    {
      hide Binds, AddressOf;
      HooksExactly(g, plt, r);
      IdleOne(mem, q, SlotOf(g, r));
      found, saved := false, oldFunc;
      if SymOf(g.machine, r.info) != g.symidx { return Done, found, saved; }
      var kind := TypeOf(g.machine, r.info);
      if plt && kind != JumpSlot(g.machine) { return Done, found, saved; }
      if !plt && kind != GlobDat(g.machine) && kind != Absolute(g.machine) { return Done, found, saved; }
      found := true;
      var addr := SlotOf(g, r);
      assert addr in mem && mem[addr] == q.newFunc ==> mem == mem[addr := q.newFunc];
      if addr < q.base { return BadFormat, found, saved; }
      status, saved := ReplaceFunction(addr, WordBytes(g.machine), q, oldFunc);
    }
  
    ghost function State(saved: Option<nat>, status: Status): Outcome
      reads this
    {
      Outcome(mem, saved, status)
    }

    /** The loop over the procedure linkage table: it ends with the first matching entry. */
    method HookPlt(g: Target, q: Request, rela: bool, p: Plain, oldFunc: Option<nat>) returns (status: Status, saved: Option<nat>)
      requires EntryCount(g.machine, rela, p.size) <= |p.entries|
      modifies this
      ensures old(failed) ==> failed
      ensures status == Refused ==> failed
      ensures var slots := FirstSlot(g, p.entries[..EntryCount(g.machine, rela, p.size)]);
        && Reached(old(State(oldFunc, Done)), q, slots, State(saved, status))
        && (!failed && AllSteady(old(prot), slots, WordBytes(g.machine)) ==> prot == old(prot))
      ensures AsBound(g, q, p.entries[..EntryCount(g.machine, rela, p.size)], [], old(mem), mem, status)
      ensures Idle(old(mem), q, FirstSlot(g, p.entries[..EntryCount(g.machine, rela, p.size)])) ==>
        mem == old(mem) && prot == old(prot) && failed == old(failed) && saved == oldFunc && status != Refused
    {
      hide Patch, PatchOne, Reached, FirstSlot, EntryCount, Hooks, Steady, Idle, AsBound;
      saved := oldFunc;
      ghost var start := State(saved, Done);
      ghost var n := EntryCount(g.machine, rela, p.size);
      ghost var es := p.entries[..n];
      var step := EntrySize(g.machine, rela);
      var it := new PlainIterator(p.size, step);
      ghost var k := 0;
      assert es[0..] == es;
      while true
        invariant k <= n && it.cur == k * step && it.end == p.size && it.step == step
        invariant mem == old(mem) && prot == old(prot) && failed == old(failed) && saved == oldFunc
        invariant FirstSlot(g, es) == FirstSlot(g, es[k..])
        decreases n - k
      {
        EntryAt(k, step, p.size);
        CountIs(g.machine, rela, p.size);
        var at := it.Next();
        if at.None? { break; }
        FirstSlotHead(g, es[k..]);
        assert es[k..][0] == es[k] == p.entries[k] && es[k..][1..] == es[k + 1..];
        var found;
        ghost var cur := State(saved, Done);
        status, found, saved := FindAndReplace(g, q, true, p.entries[at.value / step], saved);
        if found {
          ReachedOne(cur, q, SlotOf(g, es[k]), State(saved, status));
          PltAsBound(start, q, g, es, State(saved, status));
          return;
        }
        k := k + 1;
      }
      FirstSlotNone(g, es[k..]);
      ReachedNone(start, q);
      PltAsBound(start, q, g, es, start);
      return Done, saved;
    }

    /** The loop over the dynamic section: every matching entry. */
    method HookDyn(g: Target, q: Request, rela: bool, p: Plain, oldFunc: Option<nat>) returns (status: Status, saved: Option<nat>)
      requires EntryCount(g.machine, rela, p.size) <= |p.entries|
      modifies this
      ensures old(failed) ==> failed
      ensures status == Refused ==> failed
      ensures var slots := AllSlots(g, p.entries[..EntryCount(g.machine, rela, p.size)]);
        && Reached(old(State(oldFunc, Done)), q, slots, State(saved, status))
        && (!failed && AllSteady(old(prot), slots, WordBytes(g.machine)) ==> prot == old(prot))
      ensures AsBound(g, q, [], p.entries[..EntryCount(g.machine, rela, p.size)], old(mem), mem, status)
      ensures Idle(old(mem), q, AllSlots(g, p.entries[..EntryCount(g.machine, rela, p.size)])) ==>
        mem == old(mem) && prot == old(prot) && failed == old(failed) && saved == oldFunc && status != Refused
    {
      hide Patch, PatchOne, Reached, AllSlots, EntryCount, Hooks, Steady, AllSteady, Idle, AsBound;
      status, saved := Done, oldFunc;
      ghost var start := State(saved, Done);
      ghost var n := EntryCount(g.machine, rela, p.size);
      ghost var es := p.entries[..n];
      var step := EntrySize(g.machine, rela);
      var it := new PlainIterator(p.size, step);
      ghost var k := 0;
      assert es[..0] == [] && es[..n] == es;
      NothingListed(g);
      ReachedNone(start, q);
      while true
        invariant k <= n && it.cur == k * step && it.end == p.size && it.step == step
        invariant old(failed) ==> failed
        invariant status == Done && Reached(start, q, AllSlots(g, es[..k]), State(saved, Done))
        invariant !failed && AllSteady(old(prot), AllSlots(g, es), WordBytes(g.machine)) ==> prot == old(prot)
        invariant Idle(old(mem), q, AllSlots(g, es)) ==> mem == old(mem) && prot == old(prot) && failed == old(failed) && saved == oldFunc && status != Refused
        decreases n - k
      {
        EntryAt(k, step, p.size);
        CountIs(g.machine, rela, p.size);
        var at := it.Next();
        if at.None? { break; }
        ghost var done := AllSlots(g, es[..k]);
        ghost var cur := State(saved, Done);
        AllSlotsNext(g, es, k);
        IdleNext(start, q, done, cur, AllSlots(g, [es[k]]), AllSlots(g, es[k + 1..]));
        SteadyPart(old(prot), done, AllSlots(g, [es[k]]), AllSlots(g, es[k + 1..]), WordBytes(g.machine));
        status, saved := HookEntry(g, q, p.entries[at.value / step], saved);
        k := k + 1;
        if status != Done {
          ReachedThen(start, q, done, cur, AllSlots(g, [es[k - 1]]), State(saved, status));
          ReachedStop(start, q, AllSlots(g, es[..k]), State(saved, status), AllSlots(g, es[k..]));
          DataAsBound(start, q, g, es, State(saved, status));
          return;
        }
        ReachedThen(start, q, done, cur, AllSlots(g, [es[k - 1]]), State(saved, status));
      }
      DataAsBound(start, q, g, es, State(saved, status));
    }

    /** One entry of the dynamic or the packed section. */
    method HookEntry(g: Target, q: Request, r: Reloc, oldFunc: Option<nat>) returns (status: Status, saved: Option<nat>)
      modifies this
      ensures old(failed) ==> failed
      ensures status == Refused ==> failed
      ensures Reached(old(State(oldFunc, Done)), q, AllSlots(g, [r]), State(saved, status))
      ensures !failed && AllSteady(old(prot), AllSlots(g, [r]), WordBytes(g.machine)) ==> prot == old(prot)
      ensures Idle(old(mem), q, AllSlots(g, [r])) ==>
        mem == old(mem) && prot == old(prot) && failed == old(failed) && saved == oldFunc && status != Refused
    {
      hide Patch, PatchOne, Reached, Hooks, Steady, Idle;
      OneEntry(g, r);
      var found;
      ghost var cur := State(oldFunc, Done);
      status, found, saved := FindAndReplace(g, q, false, r, oldFunc);
      if found {
        ReachedOne(cur, q, SlotOf(g, r), State(saved, status));
      } else {
        ReachedNone(cur, q);
      }
    }

    /** The loop over the packed section. The slots are those of its listing, provided that no
        number in it is too long. */
    method HookAndroid(g: Target, q: Request, rela: bool, data: seq<byte>, oldFunc: Option<nat>)
      returns (status: Status, saved: Option<nat>, ghost slots: seq<nat>)
      modifies this
      ensures old(failed) ==> failed
      ensures status == Refused ==> failed
      ensures Reached(old(State(oldFunc, Done)), q, slots, State(saved, status))
      ensures Terse(WordBits(g.machine), data) ==>
        && slots == AllSlots(g, Listing(WordBits(g.machine), rela, data))
        && AsBound(g, q, [], Listing(WordBits(g.machine), rela, data), old(mem), mem, status)
      ensures !failed && AllSteady(old(prot), slots, WordBytes(g.machine)) ==> prot == old(prot)
      ensures Idle(old(mem), q, slots) ==>
        mem == old(mem) && prot == old(prot) && failed == old(failed) && saved == oldFunc && status != Refused
    {
      hide *;
      var w := WordBits(g.machine);
      ghost var terse, all := Terse(w, data), Listing(w, rela, data);
      status, saved, slots := Done, oldFunc, [];
      ghost var start := State(saved, Done);
      StatusOf(this, saved, Done);
      ReachedNone(start, q);
      NothingListed(g);
      IsWordSize(g.machine);
      var it := Opened(w, data, rela);
      ghost var left := Drain(w, rela, it.Now()).0;
      ghost var out := [];
      while true
        invariant it.Valid() && it.w == w && it.rela == rela && it.index <= it.count
        invariant fresh(it) && fresh(it.decoder)
        invariant it.decoder.cur <= |it.decoder.data|
        invariant terse ==> Terse(w, it.Rest()) && left == Drain(w, rela, it.Now()).0 && all == out + left
        invariant slots == AllSlots(g, out)
        invariant old(failed) ==> failed
        invariant status == Done && Reached(start, q, slots, State(saved, Done))
        invariant !failed && AllSteady(old(prot), slots, WordBytes(g.machine)) ==> prot == old(prot)
        invariant Idle(old(mem), q, slots) ==> mem == old(mem) && prot == old(prot) && failed == old(failed) && saved == oldFunc && status != Refused
        decreases it.count - it.index
      {
        DrainStep(w, rela, it.Now());
        var r := it.Next();
        it.Bounds();
        if r.None? {
          assert terse ==> left == [] && out + left == out;
          break;
        }
        ghost var before := left;
        left := Drain(w, rela, it.Now()).0;
        if terse { MoveOne(all, out, before, r.value, left); }
        ghost var cur := State(saved, Done);
        StatusOf(this, saved, Done);
        ghost var more := AllSlots(g, [r.value]);
        IdleBoth(old(mem), q, slots, more);
        IdleNext(start, q, slots, cur, more, []);
        status, saved := HookEntry(g, q, r.value, saved);
        ReachedThen(start, q, slots, cur, more, State(saved, status));
        SteadyBoth(old(prot), slots, more, WordBytes(g.machine));
        AllSlotsAppend(g, out, [r.value]);
        out := out + [r.value];
        slots := slots + more;
        if status != Done {
          if terse {
            StatusOf(this, saved, status);
            ReachedStop(start, q, slots, State(saved, status), AllSlots(g, left));
            SteadyBoth(old(prot), slots, AllSlots(g, left), WordBytes(g.machine));
            IdleBoth(old(mem), q, slots, AllSlots(g, left));
            AllSlotsAppend(g, out, left);
            slots := slots + AllSlots(g, left);
            DataAsBound(start, q, g, all, State(saved, status));
          }
          return;
        }
      }
      if terse {
        StatusOf(this, saved, Done);
        DataAsBound(start, q, g, all, State(saved, Done));
      }
    }

    /** xh_elf_hook. A symbol that is not in the table is no error. */
    method Hook(e: Elf, symbol: Option<Name>, newFunc: nat, keep: bool, oldFunc: Option<nat>)
      returns (status: Status, saved: Option<nat>, ghost slots: seq<nat>)
      requires Sound(e)
      modifies this
      ensures old(failed) ==> failed
      ensures status == Refused ==> failed
      ensures !e.inited ==> status == NotInited
      ensures e.inited && (symbol.None? || newFunc == 0) ==> status == Invalid
      ensures !Hookable(e, symbol, newFunc) ==>
        mem == old(mem) && prot == old(prot) && saved == oldFunc && failed == old(failed) && slots == []
      ensures e.inited && symbol.Some? && newFunc != 0 && Lookup(e.hashes, symbol.value).None? ==> status == Done
      ensures Hookable(e, symbol, newFunc) ==>
        && Reached(old(State(oldFunc, Done)), Request(e.base, keep, newFunc), slots, State(saved, status))
        && (TersePacked(e) ==> slots == Slots(e, Lookup(e.hashes, symbol.value).value))
        && (!failed && AllSteady(old(prot), slots, WordBytes(e.machine)) ==> prot == old(prot))
        && (Idle(old(mem), Request(e.base, keep, newFunc), slots) ==>
              mem == old(mem) && prot == old(prot) && failed == old(failed) && saved == oldFunc && status != Refused)
      ensures Hookable(e, symbol, newFunc) && TersePacked(e) ==>
        AsBound(Target(e.machine, e.bias, Lookup(e.hashes, symbol.value).value), Request(e.base, keep, newFunc),
                PlainListing(e, e.plt), PlainListing(e, e.dyn) + PackedList(e), old(mem), mem, status)
      ensures Harmless(old(State(oldFunc, Done)), Request(e.base, keep, newFunc), slots, State(saved, status))
    {
      hide Patch, PatchOne, Reached, AllSlots, FirstSlot, EntryCount, Listing, Hooks, Steady, AllSteady, Terse, Idle, Harmless, Lookup,
           AsBound, PlainListing, PackedList;
      saved, slots := oldFunc, [];
      ghost var start := State(oldFunc, Done);
      Untouched(start, Request(e.base, keep, newFunc));
      if !e.inited { return NotInited, saved, slots; }
      if symbol.None? || newFunc == 0 { return Invalid, saved, slots; }
      var symidx := FindSymidx(e.hashes, symbol.value);
      if symidx.None? { return Done, saved, slots; }
      var g, q := Target(e.machine, e.bias, symidx.value), Request(e.base, keep, newFunc);
      status, saved, slots := HookSections(e, g, q, oldFunc);
      ReachedHarmless(start, q, slots, State(saved, status));
      if TersePacked(e) { HookAsBound(start, q, e, symidx.value, State(saved, status)); }
    }

    /** The same hook twice: unless a protection call stopped the first one, the second changes neither
        memory nor *old_func nor any protection, and ends the same way. */
    method HookTwice(e: Elf, symbol: Option<Name>, newFunc: nat, keep: bool, oldFunc: Option<nat>)
      returns (first: Status, second: Status, saved: Option<nat>, ghost after: Outcome, ghost protAfter: map<nat, Prot>)
      requires Sound(e)
      modifies this
      ensures TersePacked(e) && first != Refused ==>
        second == first && State(saved, second) == after && prot == protAfter
    {
      hide Patch, PatchOne, Reached, Slots, FirstSlot, EntryCount, Listing, Hooks, Steady, AllSteady, Terse, Idle, Harmless, Lookup, TersePacked;
      ghost var start, slots := State(oldFunc, Done), [];
      first, saved, slots := Hook(e, symbol, newFunc, keep, oldFunc);
      after, protAfter := State(saved, first), prot;
      ghost var q := Request(e.base, keep, newFunc);
      if TersePacked(e) && first != Refused && Hookable(e, symbol, newFunc) {
        ReachedAgain(start, q, slots, after);
      }
      ghost var before := State(saved, Done);
      second, saved, slots := Hook(e, symbol, newFunc, keep, saved);
      if TersePacked(e) && first != Refused && Hookable(e, symbol, newFunc) {
        ReachedOnly(before, q, slots, State(saved, second), after);
      }
    }

    /** The three sections, one after the other. */
    method HookSections(e: Elf, g: Target, q: Request, oldFunc: Option<nat>)
      returns (status: Status, saved: Option<nat>, ghost slots: seq<nat>)
      requires Sound(e) && g == Target(e.machine, e.bias, g.symidx)
      modifies this
      ensures old(failed) ==> failed
      ensures status == Refused ==> failed
      ensures Reached(old(State(oldFunc, Done)), q, slots, State(saved, status))
      ensures TersePacked(e) ==> slots == Slots(e, g.symidx)
      ensures !failed && AllSteady(old(prot), slots, WordBytes(e.machine)) ==> prot == old(prot)
      ensures Idle(old(mem), q, slots) ==>
        mem == old(mem) && prot == old(prot) && failed == old(failed) && saved == oldFunc && status != Refused
    {
      hide Patch, PatchOne, Reached, AllSlots, FirstSlot, EntryCount, Listing, Hooks, Steady, AllSteady, Terse, Idle, State;
      ghost var bytes := WordBytes(e.machine);
      ghost var start := State(oldFunc, Done);
      StatusOf(this, oldFunc, Done);
      ghost var plt := FirstSlot(g, PlainListing(e, e.plt));
      status, saved := Done, oldFunc;
      if e.plt.Some? {
        status, saved := HookPlt(g, q, e.rela, e.plt.value, saved);
      } else {
        FirstSlotNone(g, []);
        ReachedNone(start, q);
      }
      ghost var rest := AllSlots(g, PlainListing(e, e.dyn)) + AllSlots(g, PackedList(e));
      slots := plt + rest;
      IdleBoth(old(mem), q, plt, rest);
      SteadyBoth(old(prot), plt, rest, bytes);
      StatusOf(this, saved, status);
      if status != Done {
        ReachedStop(start, q, plt, State(saved, status), rest);
        return;
      }
      ghost var afterPlt := State(saved, Done);
      status, saved, rest := HookData(e, g, q, saved);
      slots := plt + rest;
      IdleBoth(old(mem), q, plt, rest);
      IdleNext(start, q, plt, afterPlt, rest, []);
      ReachedThen(start, q, plt, afterPlt, rest, State(saved, status));
      SteadyBoth(old(prot), plt, rest, bytes);
    }

    /** The dynamic and the packed section. */
    method HookData(e: Elf, g: Target, q: Request, oldFunc: Option<nat>)
      returns (status: Status, saved: Option<nat>, ghost slots: seq<nat>)
      requires Sound(e) && g == Target(e.machine, e.bias, g.symidx)
      modifies this
      ensures old(failed) ==> failed
      ensures status == Refused ==> failed
      ensures Reached(old(State(oldFunc, Done)), q, slots, State(saved, status))
      ensures TersePacked(e) ==> slots == AllSlots(g, PlainListing(e, e.dyn)) + AllSlots(g, PackedList(e))
      ensures !failed && AllSteady(old(prot), slots, WordBytes(e.machine)) ==> prot == old(prot)
      ensures Idle(old(mem), q, slots) ==>
        mem == old(mem) && prot == old(prot) && failed == old(failed) && saved == oldFunc && status != Refused
    {
      hide Patch, PatchOne, Reached, AllSlots, FirstSlot, EntryCount, Listing, Hooks, Steady, AllSteady, Terse, Idle, State;
      ghost var bytes := WordBytes(e.machine);
      ghost var start := State(oldFunc, Done);
      StatusOf(this, oldFunc, Done);
      ghost var dyn := AllSlots(g, PlainListing(e, e.dyn));
      ghost var packed := AllSlots(g, PackedList(e));
      NothingListed(g);
      status, saved := Done, oldFunc;
      if e.dyn.Some? {
        status, saved := HookDyn(g, q, e.rela, e.dyn.value, saved);
      } else {
        ReachedNone(start, q);
      }
      slots := dyn + packed;
      IdleBoth(old(mem), q, dyn, packed);
      SteadyBoth(old(prot), dyn, packed, bytes);
      StatusOf(this, saved, status);
      if status != Done {
        ReachedStop(start, q, dyn, State(saved, status), packed);
        return;
      }
      ghost var afterDyn := State(saved, Done);
      if e.android.Some? {
        status, saved, packed := HookAndroid(g, q, e.rela, e.android.value, saved);
      } else {
        ReachedNone(afterDyn, q);
      }
      slots := dyn + packed;
      IdleBoth(old(mem), q, dyn, packed);
      IdleNext(start, q, dyn, afterDyn, packed, []);
      ReachedThen(start, q, dyn, afterDyn, packed, State(saved, status));
      SteadyBoth(old(prot), dyn, packed, bytes);
    }
  }

  /** There is something to hook: a symbol of the table, and a function to put in. */
  ghost predicate Hookable(e: Elf, symbol: Option<Name>, newFunc: nat)
    requires SoundHashes(e.hashes)
  {
    e.inited && symbol.Some? && newFunc != 0 && Lookup(e.hashes, symbol.value).Some?
  }

  /** No number of the packed section is too long. */
  ghost predicate TersePacked(e: Elf) {
    e.android.Some? ==> Terse(WordBits(e.machine), e.android.value)
  }

  function Names(h: Hashes): seq<Name> {
    match h case SysV(t) => t.names case Gnu(t) => t.names
  }

  ghost predicate SoundHashes(h: Hashes) {
    match h case SysV(t) => SysVSafe(t) case Gnu(t) => GnuSafe(t)
  }

  /** What a lookup finds: the first of the name on the chain of its hash, or a defined symbol before
      an undefined one. */
  ghost function Lookup(h: Hashes, symbol: Name): Option<nat>
    requires SoundHashes(h)
  {
    match h case SysV(t) => SysVFind(t, symbol) case Gnu(t) => GnuFind(t, symbol)
  }

  /** The table lists every symbol under its hash. */
  ghost predicate Complete(h: Hashes)
    requires SoundHashes(h)
  {
    match h case SysV(t) => SysVIndexed(t) case Gnu(t) => GnuIndexed(t)
  }

  /** On a complete table a lookup succeeds exactly when a scan of the symbols does; symbol 0 of a System V
      table is no symbol. */
  lemma LookupComplete(h: Hashes, symbol: Name)
    requires SoundHashes(h) && Complete(h)
    ensures Lookup(h, symbol).Some? <==> LinearScan(Names(h), if h.SysV? then 1 else 0, |Names(h)|, symbol).Some?
  {
    hide LinearScan, SysVIndexed, GnuIndexed, SysVFind, GnuFind;
    match h
    case SysV(t) => SysVFindComplete(t, symbol);
    case Gnu(t) => GnuFindComplete(t, symbol);
  }

  /** xh_elf_find_symidx_by_name. */
  method FindSymidx(h: Hashes, symbol: Name) returns (r: Option<nat>)
    requires SoundHashes(h)
    ensures r == Lookup(h, symbol)
    ensures r.Some? ==> r.value < |Names(h)| && Names(h)[r.value] == symbol
  {
    hide LinearScan, SysVSafe, GnuSafe, SysVIndexed, GnuIndexed, SysVFind, GnuFind;
    match h
    case Gnu(t) => r := GnuLookup(t, symbol);
    case SysV(t) => r := HashLookup(t, symbol);
  }

  lemma IsWordSize(m: Machine)
    ensures WordSize(WordBits(m))
  {}

  lemma StatusOf(p: Process, saved: Option<nat>, status: Status)
    ensures p.State(saved, status).status == status && p.State(saved, status).mem == p.mem
  {}

  lemma SteadyBoth(prot: map<nat, Prot>, xs: seq<nat>, ys: seq<nat>, bytes: nat)
    requires bytes > 0
    ensures AllSteady(prot, xs + ys, bytes) ==> AllSteady(prot, xs, bytes) && AllSteady(prot, ys, bytes)
  {
    forall a | a in xs ensures a in xs + ys {}
    forall a | a in ys ensures a in xs + ys {}
  }

  lemma OneEntry(g: Target, r: Reloc)
    ensures AllSlots(g, [r]) == if Hooks(g, false, r) then [SlotOf(g, r)] else []
  {
    assert [r][1..] == [];
  }

  lemma AllSlotsNext(g: Target, es: seq<Reloc>, k: nat)
    requires k < |es|
    ensures AllSlots(g, es[..k + 1]) == AllSlots(g, es[..k]) + AllSlots(g, [es[k]])
    ensures AllSlots(g, es) == AllSlots(g, es[..k + 1]) + AllSlots(g, es[k + 1..])
    ensures AllSlots(g, es) == AllSlots(g, es[..k]) + AllSlots(g, [es[k]]) + AllSlots(g, es[k + 1..])
  {
    hide AllSlots;
    assert es[..k + 1] == es[..k] + [es[k]];
    AllSlotsAppend(g, es[..k], [es[k]]);
    assert es == es[..k + 1] + es[k + 1..];
    AllSlotsAppend(g, es[..k + 1], es[k + 1..]);
  }

  lemma SteadyPart(prot: map<nat, Prot>, xs: seq<nat>, ys: seq<nat>, zs: seq<nat>, bytes: nat)
    requires bytes > 0
    ensures AllSteady(prot, xs + ys + zs, bytes) ==> AllSteady(prot, ys, bytes)
  {
    forall a | a in ys ensures a in xs + ys + zs {}
  }

  lemma CountIs(m: Machine, rela: bool, size: nat)
    ensures EntryCount(m, rela, size) == (size + EntrySize(m, rela) - 1) / EntrySize(m, rela)
  {}

  lemma FirstSlotHead(g: Target, rs: seq<Reloc>)
    ensures rs != [] ==> FirstSlot(g, rs) == if Hooks(g, true, rs[0]) then [SlotOf(g, rs[0])] else FirstSlot(g, rs[1..])
  {}

  lemma FirstSlotNone(g: Target, rs: seq<Reloc>)
    requires rs == []
    ensures FirstSlot(g, rs) == []
  {}

  /** xh_elf_plain_reloc_iterator_t. */
  class PlainIterator {
    var cur: nat
    const end: nat
    const step: nat

    constructor (size: nat, step: nat)
      ensures cur == 0 && end == size && this.step == step
    {
      cur, end, this.step := 0, size, step;
    }

    method Next() returns (ret: Option<nat>)
      modifies this
      ensures if old(cur) >= end then ret.None? && cur == old(cur) else ret == Some(old(cur)) && cur == old(cur) + step
    {
      if cur >= end { return None; }
      ret := Some(cur);
      cur := cur + step;
    }
  }

  lemma EntryAt(k: nat, step: nat, size: nat)
    requires step > 0
    ensures k * step / step == k && (k + 1) * step == k * step + step
    ensures k * step < size <==> k < (size + step - 1) / step
  {
    ModUnique(k * step, k, step, 0);
    MulMinus(k, -1, step);
    var c := (size + step - 1) / step;
    var left := (size + step - 1) % step;
    MulMinus(c, k, step);
    if k < c { MulAtLeast(c - k, step); }
    MulMinus(k, c, step);
    if k > c { MulAtLeast(k - c, step); }
  }
}
