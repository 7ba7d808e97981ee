/** The machine code of trampoline.c, and what the four processors do with it. */
module TrampolineCode {
  import opened Bits
  import opened Machine
  import opened Wrappers

  // ---- templates ----

  /** The array trampoline, with k where the entry point's offset goes. */
  function HookTemplate(m: Machine, k: byte): seq<byte> {
    match m
    case X86 => [0x00, 0x00, 0x00, 0x00, 0xb8, 0x78, 0x56, 0x34, 0x12, 0xff, 0x70, k, 0xc3]
    case X64 => [0x00, 0x00, 0x00, 0x00, 0x48, 0xbf, 0x78, 0x56, 0x34, 0x12, 0x78, 0x56, 0x34, 0x12, 0xff, 0x77, k, 0xc3]
    case Arm => [0x00, 0x00, 0x00, 0x00, 0x00, 0x00, 0x9f, 0xe5, k, 0xf0, 0x90, 0xe5, 0x78, 0x56, 0x34, 0x12]
    case Arm64 => [0x00, 0x00, 0x00, 0x00, 0x60, 0x00, 0x00, 0x58, 0x10, k % 16 * 16, 0x40 + k / 16, 0xf8,
                   0x00, 0x02, 0x1f, 0xd6, 0x78, 0x56, 0x34, 0x12, 0x89, 0x67, 0x45, 0x23]
  }

  /** The offset in the array as it is compiled. */
  function InitialOffset(m: Machine): byte {
    if m.Arm64? then 0 else 0x20
  }

  /** The array trampolineForBackup. */
  function BackupTemplate(m: Machine): seq<byte> {
    match m
    case X86 => [0xb8, 0x78, 0x56, 0x34, 0x12, 0x68, 0x78, 0x56, 0x34, 0x12, 0xc3]
    case X64 => [0x48, 0xbf, 0x78, 0x56, 0x34, 0x12, 0x78, 0x56, 0x34, 0x12, 0x57,
                 0x48, 0xbf, 0x78, 0x56, 0x34, 0x12, 0x78, 0x56, 0x34, 0x12, 0xc3]
    case Arm => [0x0c, 0x00, 0x9f, 0xe5, 0x01, 0x00, 0x2d, 0xe9, 0x00, 0x00, 0x9f, 0xe5, 0x00, 0x80, 0xbd, 0xe8,
                 0x78, 0x56, 0x34, 0x12, 0x78, 0x56, 0x34, 0x12]
    case Arm64 => [0x60, 0x00, 0x00, 0x58, 0x90, 0x00, 0x00, 0x58, 0x00, 0x02, 0x1f, 0xd6,
                   0x78, 0x56, 0x34, 0x12, 0x89, 0x67, 0x45, 0x23, 0x78, 0x56, 0x34, 0x12, 0x89, 0x67, 0x45, 0x23]
  }

  /** Where the method goes in a hook trampoline. */
  function HookMethodAt(m: Machine): nat {
    match m case X86 => 5 case X64 => 6 case Arm => 12 case Arm64 => 16
  }

  /** Where the method and the entry point go in a backup trampoline. */
  function BackupMethodAt(m: Machine): nat {
    match m case X86 => 1 case X64 => 13 case Arm => 16 case Arm64 => 12
  }

  function BackupEntryAt(m: Machine): nat {
    match m case X86 => 6 case X64 => 2 case Arm => 20 case Arm64 => 20
  }

  /** memcpy into a buffer. */
  function Overwrite(s: seq<byte>, at: nat, t: seq<byte>): (r: seq<byte>)
    requires at + |t| <= |s|
    ensures |r| == |s| && r[at..at + |t|] == t
    ensures forall i :: 0 <= i < |s| && !(at <= i < at + |t|) ==> r[i] == s[i]
  {
    s[..at] + t + s[at + |t|..]
  }

  /** A hook trampoline for a method. */
  function HookCode(m: Machine, k: byte, artMethod: nat): seq<byte> {
    Overwrite(HookTemplate(m, k), HookMethodAt(m), Le(artMethod, WordBytes(m)))
  }

  /** A backup trampoline for a method and its entry point. */
  function BackupCode(m: Machine, artMethod: nat, entry: nat): seq<byte> {
    Overwrite(Overwrite(BackupTemplate(m), BackupEntryAt(m), Le(entry, WordBytes(m))), BackupMethodAt(m), Le(artMethod, WordBytes(m)))
  }

  // ---- the processors ----

  /** A value known when the code was made, or the word that memory holds at an address. */
  datatype Value = Known(n: nat) | WordAt(addr: nat)

  /** The register that carries the method, a scratch register, and what was pushed, last first. */
  datatype Cpu = Cpu(pc: nat, artMethod: Value, scratch: Value, stack: seq<Value>)

  /** What an instruction does: go on, leave the code for an address, or something not known here. */
  datatype Action = Continue(cpu: Cpu) | Leave(target: Value, stack: seq<Value>) | Unknown

  /** The word of n bytes at pc + i. */
  function Literal(code: seq<byte>, at: nat, n: nat): nat
    requires at + n <= |code|
  {
    FromLe(code[at..at + n])
  }

  /** A signed displacement of one byte. */
  function Disp8(b: byte): int {
    if b < 128 then b else b - 256
  }

  function Index(m: Machine, v: Value, disp: int): Value {
    match v
    case Known(n) => WordAt(Word(WordBits(m), n + disp))
    case WordAt(a) => v
  }

  /** mov and push of an immediate, push of a word in memory, push of rdi, and ret. */
  function StepX86(m: Machine, code: seq<byte>, cpu: Cpu): Action {
    var pc := cpu.pc;
    if pc >= |code| then Unknown
    else if m.X86? && code[pc] == 0xb8 && pc + 5 <= |code| then
      Continue(cpu.(pc := pc + 5, artMethod := Known(Literal(code, pc + 1, 4))))
    else if m.X64? && code[pc] == 0x48 && pc + 10 <= |code| && code[pc + 1] == 0xbf then
      Continue(cpu.(pc := pc + 10, artMethod := Known(Literal(code, pc + 2, 8))))
    else if m.X86? && code[pc] == 0x68 && pc + 5 <= |code| then
      Continue(cpu.(pc := pc + 5, stack := [Known(Literal(code, pc + 1, 4))] + cpu.stack))
    else if code[pc] == 0xff && pc + 3 <= |code| && code[pc + 1] == (if m.X86? then 0x70 else 0x77) then
      Continue(cpu.(pc := pc + 3, stack := [Index(m, cpu.artMethod, Disp8(code[pc + 2]))] + cpu.stack))
    else if m.X64? && code[pc] == 0x57 then
      Continue(cpu.(pc := pc + 1, stack := [cpu.artMethod] + cpu.stack))
    else if code[pc] == 0xc3 && cpu.stack != [] then Leave(cpu.stack[0], cpu.stack[1..])
    else Unknown
  }

  /** The instruction whose upper three bytes are these; the lowest comes first. */
  predicate Op(code: seq<byte>, pc: nat, b3: byte, b2: byte, b1: byte)
    requires pc + 4 <= |code|
  {
    code[pc + 3] == b3 && code[pc + 2] == b2 && code[pc + 1] == b1
  }

  /** ldr r0, [pc, #i]; ldr pc, [r0, #i]; push {r0}; pop {pc}. The pc reads 8 bytes ahead. */
  function StepArm(code: seq<byte>, cpu: Cpu): Action {
    var pc := cpu.pc;
    if pc + 4 > |code| then Unknown
    else
      var low := code[pc];
      if Op(code, pc, 0xe5, 0x9f, 0x00) && pc + 8 + low + 4 <= |code| then
        Continue(cpu.(pc := pc + 4, artMethod := Known(Literal(code, pc + 8 + low, 4))))
      else if Op(code, pc, 0xe5, 0x90, 0xf0) then Leave(Index(Arm, cpu.artMethod, low), cpu.stack)
      else if Op(code, pc, 0xe9, 0x2d, 0x00) && low == 0x01 then
        Continue(cpu.(pc := pc + 4, stack := [cpu.artMethod] + cpu.stack))
      else if Op(code, pc, 0xe8, 0xbd, 0x80) && low == 0x00 && cpu.stack != [] then Leave(cpu.stack[0], cpu.stack[1..])
      else Unknown
  }

  /** ldr x0 and ldr x16 of a literal; ldur x16, [x0, #i]; br x16. */
  function StepArm64(code: seq<byte>, cpu: Cpu): Action {
    var pc := cpu.pc;
    if pc + 4 > |code| then Unknown
    else
      var low := code[pc];
      // the literal's distance in words stands above the register's five bits
      var ahead := low / 32 * 4;
      if Op(code, pc, 0x58, 0x00, 0x00) && low % 32 == 0 && pc + ahead + 8 <= |code| then
        Continue(cpu.(pc := pc + 4, artMethod := Known(Literal(code, pc + ahead, 8))))
      else if Op(code, pc, 0x58, 0x00, 0x00) && low % 32 == 16 && pc + ahead + 8 <= |code| then
        Continue(cpu.(pc := pc + 4, scratch := Known(Literal(code, pc + ahead, 8))))
      else if code[pc + 3] == 0xf8 && 0x40 <= code[pc + 2] < 0x50 && code[pc + 1] % 16 == 0 && low == 0x10 then
        Continue(cpu.(pc := pc + 4, scratch := Index(Arm64, cpu.artMethod, code[pc + 1] / 16 + (code[pc + 2] - 0x40) * 16)))
      else if Op(code, pc, 0xd6, 0x1f, 0x02) && low == 0x00 then Leave(cpu.scratch, cpu.stack)
      else Unknown
  }

  function StepCpu(m: Machine, code: seq<byte>, cpu: Cpu): Action {
    match m
    case Arm => StepArm(code, cpu)
    case Arm64 => StepArm64(code, cpu)
    case _ => StepX86(m, code, cpu)
  }

  /** Where code ends up: the method register, the address it leaves for, and the stack. */
  datatype Jump = Jump(artMethod: Value, target: Value, stack: seq<Value>)

  /** At most fuel instructions. */
  function RunCode(m: Machine, code: seq<byte>, cpu: Cpu, fuel: nat): Option<Jump>
    decreases fuel
  {
    if fuel == 0 then None
    else match StepCpu(m, code, cpu)
      case Continue(next) => RunCode(m, code, next, fuel - 1)
      case Leave(target, stack) => Some(Jump(cpu.artMethod, target, stack))
      case Unknown => None
  }

  // ---- what the trampolines mean ----

  /** The bytes of a word stand at a place in the code. */
  predicate Holds(code: seq<byte>, at: nat, x: nat, n: nat) {
    at + n <= |code| && code[at..at + n] == Le(x, n) && x < Pow2(8 * n)
  }

  lemma Loads(code: seq<byte>, at: nat, x: nat, n: nat)
    requires Holds(code, at, x, n)
    ensures at + n <= |code| && Literal(code, at, n) == x
  {
    LeBack(x, n);
  }

  /** One instruction more. */
  lemma Steps(m: Machine, code: seq<byte>, c: Cpu, fuel: nat)
    requires fuel > 0
    ensures RunCode(m, code, c, fuel) ==
      match StepCpu(m, code, c)
      case Continue(next) => RunCode(m, code, next, fuel - 1)
      case Leave(target, stack) => Some(Jump(c.artMethod, target, stack))
      case Unknown => None
  {}

  /** The offset as the processor understands it. */
  function Offset(m: Machine, k: byte): int {
    if m.X86? || m.X64? then Disp8(k) else k
  }

  lemma TailSlice(s: seq<byte>, k: nat, at: nat, n: nat)
    requires k + at + n <= |s|
    ensures s[k..][at..at + n] == s[k + at..k + at + n]
  {}

  // For each trampoline: the bytes of its code, then its instructions one by one.

  lemma HookX86Bytes(k: byte, m: nat) returns (code: seq<byte>)
    requires m < Pow2(32)
    ensures code == HookCode(X86, k, m)[4..] && |code| == 9
    ensures code[0] == 0xb8
    ensures code[5] == 0xff && code[6] == 0x70 && code[7] == k && code[8] == 0xc3
    ensures Holds(code, 1, m, 4)
  {
    hide Pow2, Le, Overwrite;
    var all := HookCode(X86, k, m);
    code := all[4..];
    TailSlice(all, 4, 1, 4);
  }

  lemma HookX86(k: byte, m: nat, c: Cpu)
    requires m < Pow2(32) && c.pc == 0
    ensures RunCode(X86, HookCode(X86, k, m)[4..], c, 4) == Some(Jump(Known(m), Index(X86, Known(m), Disp8(k)), c.stack))
  {
    hide Pow2, Le, FromLe, Literal, Holds, Index, RunCode, HookCode, BackupCode;
    var code := HookX86Bytes(k, m);
    Loads(code, 1, m, 4);
    Steps(X86, code, c, 4);
    var c1 := c.(pc := 5, artMethod := Known(m));
    Steps(X86, code, c1, 3);
    var c2 := c1.(pc := 8, stack := [Index(X86, Known(m), Disp8(k))] + c.stack);
    Steps(X86, code, c2, 2);
  }

  lemma HookX64Bytes(k: byte, m: nat) returns (code: seq<byte>)
    requires m < Pow2(64)
    ensures code == HookCode(X64, k, m)[4..] && |code| == 14
    ensures code[0] == 0x48 && code[1] == 0xbf
    ensures code[10] == 0xff && code[11] == 0x77 && code[12] == k && code[13] == 0xc3
    ensures Holds(code, 2, m, 8)
  {
    hide Pow2, Le, Overwrite;
    var all := HookCode(X64, k, m);
    code := all[4..];
    TailSlice(all, 4, 2, 8);
  }

  lemma HookX64(k: byte, m: nat, c: Cpu)
    requires m < Pow2(64) && c.pc == 0
    ensures RunCode(X64, HookCode(X64, k, m)[4..], c, 4) == Some(Jump(Known(m), Index(X64, Known(m), Disp8(k)), c.stack))
  {
    hide Pow2, Le, FromLe, Literal, Holds, Index, RunCode, HookCode, BackupCode;
    var code := HookX64Bytes(k, m);
    Loads(code, 2, m, 8);
    Steps(X64, code, c, 4);
    var c1 := c.(pc := 10, artMethod := Known(m));
    Steps(X64, code, c1, 3);
    var c2 := c1.(pc := 13, stack := [Index(X64, Known(m), Disp8(k))] + c.stack);
    Steps(X64, code, c2, 2);
  }

  lemma HookArmBytes(k: byte, m: nat) returns (code: seq<byte>)
    requires m < Pow2(32)
    ensures code == HookCode(Arm, k, m)[4..] && |code| == 12
    ensures code[0] == 0x00 && code[1] == 0x00 && code[2] == 0x9f && code[3] == 0xe5
    ensures code[4] == k && code[5] == 0xf0 && code[6] == 0x90 && code[7] == 0xe5
    ensures Holds(code, 8, m, 4)
  {
    hide Pow2, Le, Overwrite;
    var all := HookCode(Arm, k, m);
    code := all[4..];
    TailSlice(all, 4, 8, 4);
  }

  lemma HookArm(k: byte, m: nat, c: Cpu)
    requires m < Pow2(32) && c.pc == 0
    ensures RunCode(Arm, HookCode(Arm, k, m)[4..], c, 4) == Some(Jump(Known(m), Index(Arm, Known(m), k), c.stack))
  {
    hide Pow2, Le, FromLe, Literal, Holds, Index, RunCode, HookCode, BackupCode;
    var code := HookArmBytes(k, m);
    Loads(code, 8, m, 4);
    Steps(Arm, code, c, 4);
    var c1 := c.(pc := 4, artMethod := Known(m));
    Steps(Arm, code, c1, 3);
  }

  lemma HookArm64Bytes(k: byte, m: nat) returns (code: seq<byte>)
    requires m < Pow2(64)
    ensures code == HookCode(Arm64, k, m)[4..] && |code| == 20
    ensures code[0] == 0x60 && code[1] == 0x00 && code[2] == 0x00 && code[3] == 0x58
    ensures code[4] == 0x10 && code[5] == k % 16 * 16 && code[6] == 0x40 + k / 16 && code[7] == 0xf8
    ensures code[8] == 0x00 && code[9] == 0x02 && code[10] == 0x1f && code[11] == 0xd6
    ensures Holds(code, 12, m, 8)
  {
    hide Pow2, Le, Overwrite;
    var all := HookCode(Arm64, k, m);
    code := all[4..];
    TailSlice(all, 4, 12, 8);
  }

  lemma HookArm64(k: byte, m: nat, c: Cpu)
    requires m < Pow2(64) && c.pc == 0
    ensures RunCode(Arm64, HookCode(Arm64, k, m)[4..], c, 4) == Some(Jump(Known(m), Index(Arm64, Known(m), k), c.stack))
  {
    hide Pow2, Le, FromLe, Literal, Holds, Index, RunCode, HookCode, BackupCode;
    var code := HookArm64Bytes(k, m);
    Loads(code, 12, m, 8);
    assert k % 16 * 16 / 16 + (0x40 + k / 16 - 0x40) * 16 == k;
    Steps(Arm64, code, c, 4);
    var c1 := c.(pc := 4, artMethod := Known(m));
    Steps(Arm64, code, c1, 3);
    var c2 := c1.(pc := 8, scratch := Index(Arm64, Known(m), k));
    Steps(Arm64, code, c2, 2);
  }

  /** On every processor a hook trampoline puts its method in the register and goes on to the word
      at the method plus the configured offset. */
  lemma HookMeans(m: Machine, k: byte, artMethod: nat, c: Cpu)
    requires artMethod < Pow2(WordBits(m)) && c.pc == 0
    ensures RunCode(m, HookCode(m, k, artMethod)[4..], c, 4) ==
      Some(Jump(Known(artMethod), WordAt(Word(WordBits(m), artMethod + Offset(m, k))), c.stack))
  {
    hide Pow2, RunCode, HookCode, Word;
    match m
    case X86 => HookX86(k, artMethod, c);
    case X64 => HookX64(k, artMethod, c);
    case Arm => HookArm(k, artMethod, c);
    case Arm64 => HookArm64(k, artMethod, c);
  }

  /** That is the method's entry point, k bytes on, exactly when the processor takes k as positive. */
  lemma OffsetExact(m: Machine, k: byte, artMethod: nat)
    ensures Word(WordBits(m), artMethod + Offset(m, k)) == Word(WordBits(m), artMethod + k) <==>
      k < 128 || m.Arm? || m.Arm64?
  {
    hide Pow2, Word;
    if Offset(m, k) != k {
      WordIsRemainder(WordBits(m), artMethod + k - 256);
      WordIsRemainder(WordBits(m), artMethod + k);
      var w := WordBits(m);
      var x, y := artMethod + k - 256, artMethod + k;
      WideEnough(w);
      Distinct(x, Pow2(w));
    }
  }

  lemma WideEnough(w: nat)
    requires w >= 9
    ensures Pow2(w) > 256
  {
    Pow2Mono(9, w);
    assert Pow2(9) == 512;
  }

  lemma Distinct(x: int, d: int)
    requires d > 256
    ensures x % d != (x + 256) % d
  {
    if x % d + 256 < d {
      ModUnique(x + 256, x / d, d, x % d + 256);
    } else {
      MulMinus(x / d, -1, d);
      ModUnique(x + 256, x / d + 1, d, x % d + 256 - d);
    }
  }

  lemma BackupX86Bytes(m: nat, e: nat) returns (code: seq<byte>)
    requires m < Pow2(32) && e < Pow2(32)
    ensures code == BackupCode(X86, m, e) && |code| == 11
    ensures code[0] == 0xb8
    ensures code[5] == 0x68
    ensures code[10] == 0xc3
    ensures Holds(code, 1, m, 4) && Holds(code, 6, e, 4)
  {
    hide Pow2, Le, Overwrite;
    code := BackupCode(X86, m, e);
    ghost var one := Overwrite(BackupTemplate(X86), 6, Le(e, 4));
    assert code[6..6 + 4] == one[6..6 + 4];
  }

  lemma BackupX86(m: nat, e: nat, c: Cpu)
    requires m < Pow2(32) && e < Pow2(32) && c.pc == 0
    ensures RunCode(X86, BackupCode(X86, m, e), c, 4) == Some(Jump(Known(m), Known(e), c.stack))
  {
    hide Pow2, Le, FromLe, Literal, Holds, Index, RunCode, HookCode, BackupCode;
    var code := BackupX86Bytes(m, e);
    Loads(code, 1, m, 4);
    Loads(code, 6, e, 4);
    Steps(X86, code, c, 4);
    var c1 := c.(pc := 5, artMethod := Known(m));
    Steps(X86, code, c1, 3);
    var c2 := c1.(pc := 10, stack := [Known(e)] + c.stack);
    Steps(X86, code, c2, 2);
  }

  lemma BackupX64Bytes(m: nat, e: nat) returns (code: seq<byte>)
    requires m < Pow2(64) && e < Pow2(64)
    ensures code == BackupCode(X64, m, e) && |code| == 22
    ensures code[0] == 0x48 && code[1] == 0xbf
    ensures code[10] == 0x57
    ensures code[11] == 0x48 && code[12] == 0xbf
    ensures code[21] == 0xc3
    ensures Holds(code, 2, e, 8) && Holds(code, 13, m, 8)
  {
    hide Pow2, Le, Overwrite;
    code := BackupCode(X64, m, e);
    ghost var one := Overwrite(BackupTemplate(X64), 2, Le(e, 8));
    assert code[2..2 + 8] == one[2..2 + 8];
  }

  lemma BackupX64(m: nat, e: nat, c: Cpu)
    requires m < Pow2(64) && e < Pow2(64) && c.pc == 0
    ensures RunCode(X64, BackupCode(X64, m, e), c, 4) == Some(Jump(Known(m), Known(e), c.stack))
  {
    hide Pow2, Le, FromLe, Literal, Holds, Index, RunCode, HookCode, BackupCode;
    var code := BackupX64Bytes(m, e);
    Loads(code, 2, e, 8);
    Loads(code, 13, m, 8);
    Steps(X64, code, c, 4);
    var c1 := c.(pc := 10, artMethod := Known(e));
    Steps(X64, code, c1, 3);
    var c2 := c1.(pc := 11, stack := [Known(e)] + c.stack);
    Steps(X64, code, c2, 2);
    var c3 := c2.(pc := 21, artMethod := Known(m));
    Steps(X64, code, c3, 1);
  }

  lemma BackupArmBytes(m: nat, e: nat) returns (code: seq<byte>)
    requires m < Pow2(32) && e < Pow2(32)
    ensures code == BackupCode(Arm, m, e) && |code| == 24
    ensures code[0] == 0x0c && code[1] == 0x00 && code[2] == 0x9f && code[3] == 0xe5
    ensures code[4] == 0x01 && code[5] == 0x00 && code[6] == 0x2d && code[7] == 0xe9
    ensures code[8] == 0x00 && code[9] == 0x00 && code[10] == 0x9f && code[11] == 0xe5
    ensures code[12] == 0x00 && code[13] == 0x80 && code[14] == 0xbd && code[15] == 0xe8
    ensures Holds(code, 16, m, 4) && Holds(code, 20, e, 4)
  {
    hide Pow2, Le, Overwrite;
    code := BackupCode(Arm, m, e);
    ghost var one := Overwrite(BackupTemplate(Arm), 20, Le(e, 4));
    assert code[20..20 + 4] == one[20..20 + 4];
  }

  lemma BackupArm(m: nat, e: nat, c: Cpu)
    requires m < Pow2(32) && e < Pow2(32) && c.pc == 0
    ensures RunCode(Arm, BackupCode(Arm, m, e), c, 4) == Some(Jump(Known(m), Known(e), c.stack))
  {
    hide Pow2, Le, FromLe, Literal, Holds, Index, RunCode, HookCode, BackupCode;
    var code := BackupArmBytes(m, e);
    Loads(code, 16, m, 4);
    Loads(code, 20, e, 4);
    Steps(Arm, code, c, 4);
    var c1 := c.(pc := 4, artMethod := Known(e));
    Steps(Arm, code, c1, 3);
    var c2 := c1.(pc := 8, stack := [Known(e)] + c.stack);
    Steps(Arm, code, c2, 2);
    var c3 := c2.(pc := 12, artMethod := Known(m));
    Steps(Arm, code, c3, 1);
  }

  lemma BackupArm64Bytes(m: nat, e: nat) returns (code: seq<byte>)
    requires m < Pow2(64) && e < Pow2(64)
    ensures code == BackupCode(Arm64, m, e) && |code| == 28
    ensures code[0] == 0x60 && code[1] == 0x00 && code[2] == 0x00 && code[3] == 0x58
    ensures code[4] == 0x90 && code[5] == 0x00 && code[6] == 0x00 && code[7] == 0x58
    ensures code[8] == 0x00 && code[9] == 0x02 && code[10] == 0x1f && code[11] == 0xd6
    ensures Holds(code, 12, m, 8) && Holds(code, 20, e, 8)
  {
    hide Pow2, Le, Overwrite;
    code := BackupCode(Arm64, m, e);
    ghost var one := Overwrite(BackupTemplate(Arm64), 20, Le(e, 8));
    assert code[20..20 + 8] == one[20..20 + 8];
  }

  lemma BackupArm64(m: nat, e: nat, c: Cpu)
    requires m < Pow2(64) && e < Pow2(64) && c.pc == 0
    ensures RunCode(Arm64, BackupCode(Arm64, m, e), c, 4) == Some(Jump(Known(m), Known(e), c.stack))
  {
    hide Pow2, Le, FromLe, Literal, Holds, Index, RunCode, HookCode, BackupCode;
    var code := BackupArm64Bytes(m, e);
    Loads(code, 12, m, 8);
    Loads(code, 20, e, 8);
    Steps(Arm64, code, c, 4);
    var c1 := c.(pc := 4, artMethod := Known(m));
    Steps(Arm64, code, c1, 3);
    var c2 := c1.(pc := 8, scratch := Known(e));
    Steps(Arm64, code, c2, 2);
  }

  /** On every processor a backup trampoline puts its method in the register and goes on to the
      entry point it was made with. */
  lemma BackupMeans(m: Machine, artMethod: nat, entry: nat, c: Cpu)
    requires artMethod < Pow2(WordBits(m)) && entry < Pow2(WordBits(m)) && c.pc == 0
    ensures RunCode(m, BackupCode(m, artMethod, entry), c, 4) == Some(Jump(Known(artMethod), Known(entry), c.stack))
  {
    hide Pow2, RunCode, BackupCode;
    match m
    case X86 => BackupX86(artMethod, entry, c);
    case X64 => BackupX64(artMethod, entry, c);
    case Arm => BackupArm(artMethod, entry, c);
    case Arm64 => BackupArm64(artMethod, entry, c);
  }
}
