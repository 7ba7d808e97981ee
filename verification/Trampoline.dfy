/** The allocator of trampoline.c: blocks of code carved out of mapped spaces. */
module Trampoline {
  import opened Bits
  import opened Machine
  import opened TrampolineCode

  const TRAMPOLINE_SPACE_SIZE: nat := 4096

  /** The macro roundUpToPtrSize, for pointers of n bytes. */
  function RoundUp(v: nat, n: nat): nat
    requires n > 0
  {
    v + n - 1 - (v + n - 1) % n
  }

  /** What genTrampoline comes to: code at an address, no memory for it, or a write to address 0. */
  datatype Generated = Code(addr: nat) | NoSpace | Fault

  /** A trampoline in memory. */
  datatype Block = Block(at: nat, code: seq<byte>)

  /** memcpy to an address. */
  function Blit(mem: map<nat, byte>, at: nat, s: seq<byte>): map<nat, byte> {
    map x | x in mem :: if at <= x < at + |s| then s[x - at] else mem[x]
  }

  /** What mmap puts into fresh pages. */
  function Zeroes(at: nat, n: nat): (z: map<nat, byte>)
    ensures forall x :: x in z <==> at <= x < at + n
  {
    if n == 0 then map[] else Zeroes(at, n - 1)[at + n - 1 := 0]
  }

  lemma BlitTwice(mem: map<nat, byte>, at: nat, s: seq<byte>, i: nat, t: seq<byte>)
    requires i + |t| <= |s|
    ensures Blit(Blit(mem, at, s), at + i, t) == Blit(mem, at, Overwrite(s, i, t))
  {}

  ghost predicate InMemory(mem: map<nat, byte>, b: Block) {
    forall x :: b.at <= x < b.at + |b.code| ==> x in mem && mem[x] == b.code[x - b.at]
  }

  ghost predicate Apart(b: Block, lo: nat, hi: nat) {
    b.at + |b.code| <= lo || hi <= b.at
  }

  ghost predicate Inside(b: Block, space: nat) {
    space <= b.at && b.at + |b.code| <= space + TRAMPOLINE_SPACE_SIZE
  }

  lemma BlitHolds(mem: map<nat, byte>, b: Block)
    requires forall x :: b.at <= x < b.at + |b.code| ==> x in mem
    ensures InMemory(Blit(mem, b.at, b.code), b)
  {}

  lemma BlitApart(mem: map<nat, byte>, at: nat, s: seq<byte>, b: Block)
    requires InMemory(mem, b) && Apart(b, at, at + |s|)
    ensures InMemory(Blit(mem, at, s), b)
  {}

  // ---- setupTrampoline on the hook template ----

  lemma OrBelow(a: nat, b: nat, k: nat)
    requires a < Pow2(k) && b < Pow2(k)
    ensures Or(a, b) < Pow2(k)
    decreases k
  {
    if k == 0 {
    } else {
      OrHalves(a, b);
      OrBelow(a / 2, b / 2, k - 1);
    }
  }

  lemma OrBy16(a: nat, b: nat, c: nat, d: nat)
    requires a < 16 && b < 16
    ensures Or(a + 16 * c, b + 16 * d) == Or(a, b) + 16 * Or(c, d) && Or(a, b) < 16
  {
    hide Or;
    Powers();
    OrParts(a, b, c, d, 4);
    OrBelow(a, b, 4);
  }

  lemma OrBy256(a: nat, b: nat, d: nat)
    requires a < 256 && b < 256
    ensures Or(a, b + 256 * d) == Or(a, b) + 256 * Or(0, d)
  {
    hide Or;
    Powers();
    OrParts(a, b, 0, d, 8);
  }

  /** On aarch64 the offset is or-ed into the template, so what was there before stays. */
  lemma OrNibbles(k: byte, offset: byte)
    ensures Or(k, offset) < 256
    ensures Or(k % 16 * 16, offset * 16) % 256 == Or(k, offset) % 16 * 16
    ensures Or(0x40 + k / 16, offset / 16) == 0x40 + Or(k, offset) / 16
  {
    hide Or;
    var a, b, c, d := k % 16, offset % 16, k / 16, offset / 16;
    OrLowHigh(a, b, c, d);
    NibbleArithmetic(Or(a, b), Or(c, d), d);
  }

  lemma OrLowHigh(a: nat, b: nat, c: nat, d: nat)
    requires a < 16 && b < 16 && c < 16 && d < 16
    ensures Or(a, b) < 16 && Or(c, d) < 16
    ensures Or(a + 16 * c, b + 16 * d) == Or(a, b) + 16 * Or(c, d)
    ensures Or(16 * a, 16 * b + 256 * d) == 16 * Or(a, b) + 256 * d
    ensures Or(c + 64, d) == Or(c, d) + 64
  {
    hide Or;
    OrBy16(a, b, c, d);
    OrBy16(c, d, 4, 0);
    OrBy16(0, 0, a, b);
    OrBy256(16 * a, 16 * b, d);
    OrZero(0);
    OrZero(4);
    OrZero(d);
  }

  lemma NibbleArithmetic(x: nat, y: nat, d: nat)
    requires x < 16 && y < 16
    ensures (16 * x + 256 * d) % 256 == 16 * x && (x + 16 * y) % 16 == x && (x + 16 * y) / 16 == y
  {}

  lemma Powers()
    ensures Pow2(4) == 16 && Pow2(8) == 256
  {}

  /** setupTrampoline in place. */
  function Setup(m: Machine, t: seq<byte>, offset: byte): seq<byte>
    requires |t| > 16 || (m.Arm? && |t| > 8) || (m.X86? && |t| > 11)
  {
    match m
    case X86 => t[11 := offset]
    case X64 => t[16 := offset]
    case Arm => t[8 := offset]
    case Arm64 => t[9 := Or(t[9], offset * 16) % 256][10 := Or(t[10], offset / 16) % 256]
  }

  /** The offset the template holds after a setup. */
  function NewOffset(m: Machine, k: byte, offset: byte): byte
  {
    if m.Arm64? then Or(k, offset) % 256 else offset
  }

  lemma SetupArm64(k: byte, offset: byte)
    ensures Setup(Arm64, HookTemplate(Arm64, k), offset) == HookTemplate(Arm64, NewOffset(Arm64, k, offset))
  {
    hide Or;
    OrNibbles(k, offset);
    var t := HookTemplate(Arm64, k);
    var r: byte := Or(k, offset);
    var low: byte, high: byte := r % 16 * 16, 0x40 + r / 16;
    assert t[9] == k % 16 * 16 && t[10] == 0x40 + k / 16;
    assert Setup(Arm64, t, offset) == t[9 := low][10 := high];
  }

  lemma SetupSets(m: Machine, k: byte, offset: byte)
    ensures Setup(m, HookTemplate(m, k), offset) == HookTemplate(m, NewOffset(m, k, offset))
  {
    hide Or;
    if m.Arm64? { SetupArm64(k, offset); }
  }

  lemma OneSetup(offset: byte, m: Machine)
    ensures NewOffset(m, InitialOffset(m), offset) == offset
  {
    OrZero(offset);
  }

  // ---- spaces and blocks ----

  /** Every space is mapped whole pages; what is free, from the cursor on, ends one of them. */
  ghost predicate SpacesOk(n: nat, mem: map<nat, byte>, spaces: set<nat>, reserved: set<nat>, cursor: nat, end: nat)
    requires n > 0
  {
    && (forall s <- spaces :: s > 0 && s % TRAMPOLINE_SPACE_SIZE == 0 && s + TRAMPOLINE_SPACE_SIZE <= Pow2(8 * n) && forall x :: s <= x < s + TRAMPOLINE_SPACE_SIZE ==> x in mem && x !in reserved)
    && (end == 0 ==> cursor == 0)
    && (end != 0 ==> end - TRAMPOLINE_SPACE_SIZE in spaces)
    && (cursor != 0 ==> cursor <= end <= cursor + TRAMPOLINE_SPACE_SIZE && cursor % n == 0)
  }

  ghost predicate BlockOk(n: nat, mem: map<nat, byte>, spaces: set<nat>, b: Block)
    requires n > 0
  {
    b.at % n == 0 && InMemory(mem, b) && exists s <- spaces :: Inside(b, s)
  }

  /** Blocks are aligned, in memory, inside a space, apart from each other and from what is free. */
  ghost predicate Sound(n: nat, mem: map<nat, byte>, spaces: set<nat>, reserved: set<nat>, blocks: seq<Block>, cursor: nat, end: nat)
    requires n > 0
  {
    && SpacesOk(n, mem, spaces, reserved, cursor, end)
    && (forall b <- blocks :: BlockOk(n, mem, spaces, b) && (cursor != 0 ==> Apart(b, cursor, end)))
    && (forall i, j :: 0 <= i < j < |blocks| ==> Apart(blocks[i], blocks[j].at, blocks[j].at + |blocks[j].code|))
  }

  /** A fresh space keeps everything and becomes what is free. */
  lemma SpaceAdded(n: nat, mem: map<nat, byte>, spaces: set<nat>, reserved: set<nat>, blocks: seq<Block>, cursor: nat, end: nat, space: nat)
    requires (n == 4 || n == 8) && Sound(n, mem, spaces, reserved, blocks, cursor, end)
    requires space > 0 && space % TRAMPOLINE_SPACE_SIZE == 0 && space + TRAMPOLINE_SPACE_SIZE <= Pow2(8 * n)
    requires forall x :: space <= x < space + TRAMPOLINE_SPACE_SIZE ==> x !in mem && x !in reserved
    ensures Sound(n, mem + Zeroes(space, TRAMPOLINE_SPACE_SIZE), spaces + {space}, reserved, blocks, space, space + TRAMPOLINE_SPACE_SIZE)
  {
    var mem', spaces' := mem + Zeroes(space, TRAMPOLINE_SPACE_SIZE), spaces + {space};
    assert space !in spaces by { assert space !in mem; }
    assert SpacesOk(n, mem', spaces', reserved, space, space + TRAMPOLINE_SPACE_SIZE) by { PageAligned(n, space); }
    forall b <- blocks ensures BlockOk(n, mem', spaces', b) && Apart(b, space, space + TRAMPOLINE_SPACE_SIZE) {
      BlockKept(n, mem, spaces, b, space);
    }
  }

  lemma PageAligned(n: nat, space: nat)
    requires (n == 4 || n == 8) && space % TRAMPOLINE_SPACE_SIZE == 0
    ensures space % n == 0
  {
    var pages := space / TRAMPOLINE_SPACE_SIZE;
    assert space == 4096 * pages;
    ModUnique(space, 1024 * pages, 4, 0);
    ModUnique(space, 512 * pages, 8, 0);
  }

  lemma PagesApart(s: nat, t: nat)
    requires s % TRAMPOLINE_SPACE_SIZE == 0 && t % TRAMPOLINE_SPACE_SIZE == 0 && s != t
    ensures s + TRAMPOLINE_SPACE_SIZE <= t || t + TRAMPOLINE_SPACE_SIZE <= s
  {}

  lemma BlockKept(n: nat, mem: map<nat, byte>, spaces: set<nat>, b: Block, space: nat)
    requires n > 0 && BlockOk(n, mem, spaces, b) && space % TRAMPOLINE_SPACE_SIZE == 0
    requires forall s <- spaces :: s % TRAMPOLINE_SPACE_SIZE == 0 && s != space
    requires forall x :: space <= x < space + TRAMPOLINE_SPACE_SIZE ==> x !in mem
    ensures BlockOk(n, mem + Zeroes(space, TRAMPOLINE_SPACE_SIZE), spaces + {space}, b) && Apart(b, space, space + TRAMPOLINE_SPACE_SIZE)
  {
    var s :| s in spaces && Inside(b, s);
    assert s in spaces + {space};
    PagesApart(s, space);
  }

  lemma RoundUpFits4(size: nat, cursor: nat, end: nat)
    requires cursor % 4 == 0 && end % 4 == 0 && cursor + size <= end
    ensures (cursor + RoundUp(size, 4)) % 4 == 0 && cursor + size <= cursor + RoundUp(size, 4) <= end
  {
    var c, e, u := cursor / 4, end / 4, (size + 3) / 4;
    assert cursor == 4 * c && end == 4 * e;
    assert RoundUp(size, 4) == 4 * u && size <= 4 * u <= size + 3;
    assert c + u <= e;
    ModUnique(cursor + 4 * u, c + u, 4, 0);
  }

  lemma RoundUpFits8(size: nat, cursor: nat, end: nat)
    requires cursor % 8 == 0 && end % 8 == 0 && cursor + size <= end
    ensures (cursor + RoundUp(size, 8)) % 8 == 0 && cursor + size <= cursor + RoundUp(size, 8) <= end
  {
    var c, e, u := cursor / 8, end / 8, (size + 7) / 8;
    assert cursor == 8 * c && end == 8 * e;
    assert RoundUp(size, 8) == 8 * u && size <= 8 * u <= size + 7;
    assert c + u <= e;
    ModUnique(cursor + 8 * u, c + u, 8, 0);
  }

  /** Room for a block, rounded up, ends inside the space. */
  lemma RoundUpFits(n: nat, size: nat, cursor: nat, end: nat)
    requires (n == 4 || n == 8) && cursor % n == 0 && end % TRAMPOLINE_SPACE_SIZE == 0 && cursor + size <= end
    ensures (cursor + RoundUp(size, n)) % n == 0 && cursor + size <= cursor + RoundUp(size, n) <= end
  {
    hide RoundUp;
    PageAligned(n, end);
    if n == 4 { RoundUpFits4(size, cursor, end); } else { RoundUpFits8(size, cursor, end); }
  }

  /** A block written where free memory starts joins the others. */
  lemma BlockAdded(n: nat, mem: map<nat, byte>, spaces: set<nat>, reserved: set<nat>, blocks: seq<Block>, cursor: nat, end: nat, code: seq<byte>)
    requires (n == 4 || n == 8) && Sound(n, mem, spaces, reserved, blocks, cursor, end)
    requires cursor != 0 && cursor + |code| <= end
    ensures Sound(n, Blit(mem, cursor, code), spaces, reserved, blocks + [Block(cursor, code)], cursor + RoundUp(|code|, n), end)
  {
    var mem', added := Blit(mem, cursor, code), Block(cursor, code);
    assert end % TRAMPOLINE_SPACE_SIZE == 0;
    RoundUpFits(n, |code|, cursor, end);
    var cursor' := cursor + RoundUp(|code|, n);
    assert SpacesOk(n, mem', spaces, reserved, cursor', end);
    assert BlockOk(n, mem', spaces, added) by {
      BlitHolds(mem, added);
      assert Inside(added, end - TRAMPOLINE_SPACE_SIZE);
    }
    forall b <- blocks ensures BlockOk(n, mem', spaces, b) && Apart(b, cursor, cursor + |code|) && Apart(b, cursor', end) {
      assert BlockOk(n, mem, spaces, b);
      BlitApart(mem, cursor, code, b);
    }
    assert Apart(added, cursor', end);
    var all := blocks + [added];
    forall i, j | 0 <= i < j < |all| ensures Apart(all[i], all[j].at, all[j].at + |all[j].code|) {
      assert all[i] == blocks[i] && blocks[i] in blocks;
    }
  }

  /** Whole fresh pages within the address space. */
  predicate Usable(m: Machine, page: nat, mem: map<nat, byte>, reserved: set<nat>) {
    && page > 0 && page % TRAMPOLINE_SPACE_SIZE == 0 && page + TRAMPOLINE_SPACE_SIZE <= Pow2(8 * WordBytes(m))
    && forall x :: page <= x < page + TRAMPOLINE_SPACE_SIZE ==> x !in mem && x !in reserved
  }

  lemma UsableMeans(m: Machine, page: nat, mem: map<nat, byte>, reserved: set<nat>)
    requires Usable(m, page, mem, reserved)
    ensures page > 0 && page % TRAMPOLINE_SPACE_SIZE == 0 && page + TRAMPOLINE_SPACE_SIZE <= Pow2(8 * WordBytes(m))
    ensures forall x :: page <= x < page + TRAMPOLINE_SPACE_SIZE ==> x !in mem && x !in reserved
  {}

  /** trampoline.c's static state, and the memory it maps. */
  class Trampolines {
    const machine: Machine
    /** Addresses that others have mapped. */
    const reserved: set<nat>
    /** What mmap answers, call by call; 0 when it fails. */
    const kernel: nat -> nat
    var calls: nat
    var trampoline: seq<byte>
    var cursor: nat
    var end: nat
    var mem: map<nat, byte>
    ghost var offset: byte
    ghost var spaces: set<nat>
    ghost var blocks: seq<Block>

    ghost predicate Valid()
      reads this
    {
      trampoline == HookTemplate(machine, offset) && Sound(WordBytes(machine), mem, spaces, reserved, blocks, cursor, end)
    }

    constructor (machine: Machine, reserved: set<nat>, kernel: nat -> nat)
      ensures this.kernel == kernel && calls == 0 && cursor == 0 && end == 0 && mem == map[]
      ensures Valid() && this.machine == machine && this.reserved == reserved && offset == InitialOffset(machine) && blocks == []
    {
      this.machine, this.reserved, this.kernel, calls := machine, reserved, kernel, 0;
      trampoline := HookTemplate(machine, InitialOffset(machine));
      cursor, end, mem := 0, 0, map[];
      offset, spaces, blocks := InitialOffset(machine), {}, [];
    }

    method SetupTrampoline(offset: byte)
      requires Valid()
      modifies `trampoline, `offset
      ensures Valid() && this.offset == NewOffset(machine, old(this.offset), offset)
    {
      SetupSets(machine, this.offset, offset);
      trampoline := Setup(machine, trampoline, offset);
      this.offset := NewOffset(machine, this.offset, offset);
    }

    /** allocTrampolineSpace: mmap gives fresh whole pages, or fails. */
    method AllocSpace() returns (space: nat)
      modifies `mem, `spaces, `calls
      ensures calls == old(calls) + 1
      ensures if Usable(machine, kernel(old(calls)), old(mem), reserved)
        then space == kernel(old(calls)) && mem == old(mem) + Zeroes(space, TRAMPOLINE_SPACE_SIZE) && spaces == old(spaces) + {space}
        else space == 0 && mem == old(mem) && spaces == old(spaces)
    {
      space := kernel(calls);
      calls := calls + 1;
      if !Usable(machine, space, mem, reserved) { return 0; }
      mem := mem + Zeroes(space, TRAMPOLINE_SPACE_SIZE);
      spaces := spaces + {space};
    }

    /** genTrampoline; entrypoint 0 is NULL. The source does not look at the address it writes to:
        after a failed mmap that is 0, while the end of the space before is still in force. */
    method GenTrampoline(toMethod: nat, entrypoint: nat) returns (r: Generated)
      requires Valid()
      modifies this
      ensures Valid() && trampoline == old(trampoline) && offset == old(offset)
      ensures r.Fault? <==> old(cursor) == 0 && old(end) != 0
      ensures var size := if entrypoint != 0 then |BackupTemplate(machine)| else |HookTemplate(machine, offset)|;
        var room := old(cursor) + size <= old(end);
        && calls == old(calls) + (if room then 0 else 1)
        && (r.NoSpace? <==> !room && !Usable(machine, kernel(old(calls)), old(mem), reserved))
        && (r.NoSpace? ==> cursor == 0 && end == old(end))
        && (r.Code? ==>
              var at := if room then old(cursor) else kernel(old(calls));
              && r.addr == at + (if entrypoint == 0 then 4 else 0) && at > 0
              && cursor == at + RoundUp(size, WordBytes(machine)) && end == (if room then old(end) else at + TRAMPOLINE_SPACE_SIZE)
              && blocks == old(blocks) + [Block(at, if entrypoint == 0 then HookCode(machine, offset, toMethod)
                                                    else BackupCode(machine, toMethod, entrypoint))])
      ensures !r.Code? ==> blocks == old(blocks) && mem == old(mem)
    {
      hide Sound, Blit, HookCode, BackupCode, Pow2, BackupTemplate, HookTemplate, Usable, RoundUp;
      var n := WordBytes(machine);
      var size := if entrypoint != 0 then |BackupTemplate(machine)| else |trampoline|;
      Sizes(machine, offset);
      SoundEnd(n, mem, spaces, reserved, blocks, cursor, end);
      if cursor + size > end {
        ghost var before := mem;
        ghost var known := spaces;
        var space := AllocSpace();
        if space == 0 {
          if Usable(machine, kernel(old(calls)), before, reserved) {
            UsableMeans(machine, kernel(old(calls)), before, reserved);
          }
          SoundStopped(n, mem, spaces, reserved, blocks, cursor, end);
          cursor := space;
          return NoSpace;
        }
        UsableMeans(machine, space, before, reserved);
        SpaceAdded(n, before, known, reserved, blocks, cursor, end, space);
        cursor := space;
        end := space + TRAMPOLINE_SPACE_SIZE;
      }
      if cursor == 0 { return Fault; }
      var target := cursor;
      ghost var code := if entrypoint == 0 then HookCode(machine, offset, toMethod) else BackupCode(machine, toMethod, entrypoint);
      BlockAdded(n, mem, spaces, reserved, blocks, cursor, end, code);
      WriteCode(target, toMethod, entrypoint);
      blocks := blocks + [Block(cursor, code)];
      if entrypoint == 0 { target := target + 4; }
      cursor := cursor + RoundUp(size, n);
      return Code(target);
    }

    /** The template copied to an address, the pointers copied into it. */
    method WriteCode(target: nat, toMethod: nat, entrypoint: nat)
      requires trampoline == HookTemplate(machine, offset)
      modifies `mem
      ensures mem == Blit(old(mem), target,
        if entrypoint == 0 then HookCode(machine, offset, toMethod) else BackupCode(machine, toMethod, entrypoint))
    {
      hide Blit, Le, BackupTemplate, HookTemplate, BackupEntryAt, BackupMethodAt, HookMethodAt;
      var n := WordBytes(machine);
      Sizes(machine, offset);
      if entrypoint != 0 {
        var t := BackupTemplate(machine);
        mem := Blit(mem, target, t);
        mem := Blit(mem, target + BackupEntryAt(machine), Le(entrypoint, n));
        mem := Blit(mem, target + BackupMethodAt(machine), Le(toMethod, n));
        BlitTwice(old(mem), target, t, BackupEntryAt(machine), Le(entrypoint, n));
        BlitTwice(old(mem), target, Overwrite(t, BackupEntryAt(machine), Le(entrypoint, n)), BackupMethodAt(machine), Le(toMethod, n));
      } else {
        mem := Blit(mem, target, trampoline);
        mem := Blit(mem, target + HookMethodAt(machine), Le(toMethod, n));
        BlitTwice(old(mem), target, trampoline, HookMethodAt(machine), Le(toMethod, n));
      }
    }
  }

  /** A run in which the second mmap fails: the space of the first fills up, one trampoline is refused,
      and the next is written to address 0. */
  method SecondMmapFails() returns (refused: Generated, next: Generated)
    ensures refused.NoSpace? && next.Fault?
  {
    var t := new Trampolines(X86, {}, n => if n == 0 then 4096 else 0);
    Room32();
    var r := t.GenTrampoline(1, 0);
    var k := 1;
    while k < 256
      invariant 1 <= k <= 256 && fresh(t) && t.Valid() && t.machine == X86 && t.kernel(1) == 0 && t.calls == 1
      invariant t.cursor == 4096 + 16 * k && t.end == 8192
    {
      r := t.GenTrampoline(1, 0);
      k := k + 1;
    }
    refused := t.GenTrampoline(1, 0);
    next := t.GenTrampoline(1, 0);
  }

  lemma Room32()
    ensures Pow2(32) >= 8192
  {
    Pow2Mono(13, 32);
    assert Pow2(13) == 8192;
  }

  /** The sizes the templates have, and room in them for the pointers. */
  lemma Sizes(m: Machine, k: byte)
    ensures 0 < |BackupTemplate(m)| <= TRAMPOLINE_SPACE_SIZE && 4 < |HookTemplate(m, k)| <= TRAMPOLINE_SPACE_SIZE
    ensures BackupEntryAt(m) + WordBytes(m) <= |BackupTemplate(m)| && BackupMethodAt(m) + WordBytes(m) <= |BackupTemplate(m)|
    ensures HookMethodAt(m) + WordBytes(m) <= |HookTemplate(m, k)|
    ensures forall x: nat :: |HookCode(m, k, x)| == |HookTemplate(m, k)|
    ensures forall x: nat, e: nat :: |BackupCode(m, x, e)| == |BackupTemplate(m)|
  {}

  lemma SoundEnd(n: nat, mem: map<nat, byte>, spaces: set<nat>, reserved: set<nat>, blocks: seq<Block>, cursor: nat, end: nat)
    requires n > 0 && Sound(n, mem, spaces, reserved, blocks, cursor, end)
    ensures end == 0 ==> cursor == 0
    ensures end != 0 ==> end >= TRAMPOLINE_SPACE_SIZE
  {}

  lemma SoundStopped(n: nat, mem: map<nat, byte>, spaces: set<nat>, reserved: set<nat>, blocks: seq<Block>, cursor: nat, end: nat)
    requires n > 0 && Sound(n, mem, spaces, reserved, blocks, cursor, end)
    ensures Sound(n, mem, spaces, reserved, blocks, 0, end)
  {}

  /** A new block's addresses are nobody else's. */
  lemma NewBlockFresh(n: nat, mem: map<nat, byte>, spaces: set<nat>, reserved: set<nat>, blocks: seq<Block>, b: Block, cursor: nat, end: nat, a: nat)
    requires n > 0 && Sound(n, mem, spaces, reserved, blocks + [b], cursor, end)
    requires b.at <= a < b.at + |b.code|
    ensures 0 < a < Pow2(8 * n) && a !in reserved
    ensures forall c <- blocks :: !(c.at <= a < c.at + |c.code|)
  {
    hide Pow2;
    assert BlockOk(n, mem, spaces, b) by { assert b in blocks + [b]; }
    forall c <- blocks ensures !(c.at <= a < c.at + |c.code|) {
      var i :| 0 <= i < |blocks| && blocks[i] == c;
      assert (blocks + [b])[i] == c && (blocks + [b])[|blocks|] == b;
    }
  }

  lemma BlockInMemory(n: nat, mem: map<nat, byte>, spaces: set<nat>, reserved: set<nat>, blocks: seq<Block>, cursor: nat, end: nat, b: Block)
    requires n > 0 && Sound(n, mem, spaces, reserved, blocks, cursor, end) && b in blocks
    ensures InMemory(mem, b)
  {
    assert BlockOk(n, mem, spaces, b);
  }
}
