/** Installing hooks: hook_main.c over method entry points and trampolines. */
module Install {
  import opened Bits
  import opened Machine
  import opened TrampolineCode
  import opened Trampoline
  import opened Wrappers

  /** The two entry points of an ArtMethod. */
  datatype Art = Art(entry: nat, interp: nat)

  /** A trampoline: on to the entry point a method has now, or to an address, as that method. */
  datatype Stub = ToMethod(to: nat) | Fixed(to: nat, entry: nat)

  /** The methods by address, and the trampolines by the address they are entered at. */
  datatype World = World(methods: map<nat, Art>, code: map<nat, Stub>)

  /** Jump to address a with r in the method register: which code runs in the end, and as which method. */
  ghost function Exec(w: World, a: nat, r: nat, fuel: nat): Option<(nat, nat)>
    decreases fuel
  {
    if a !in w.code then Some((a, r))
    else if fuel == 0 then None
    else match w.code[a]
      case ToMethod(m) => if m in w.methods then Exec(w, w.methods[m].entry, m, fuel - 1) else None
      case Fixed(m, e) => Exec(w, e, m, fuel - 1)
  }

  /** A call of m ends up in out. */
  ghost predicate Runs(w: World, m: nat, out: (nat, nat)) {
    m in w.methods && exists fuel: nat :: Exec(w, w.methods[m].entry, m, fuel) == Some(out)
  }

  ghost predicate Known(w: World, native: set<nat>, a: nat) {
    a in w.code || a in native
  }

  /** Entry points are trampolines or native code, and trampolines lead to methods. */
  ghost predicate Closed(w: World, native: set<nat>) {
    && 0 !in native && 0 !in w.code
    && (forall m <- w.methods :: Known(w, native, w.methods[m].entry))
    && (forall a <- w.code :: w.code[a].to in w.methods)
    && (forall a <- w.code :: w.code[a].Fixed? ==> Known(w, native, w.code[a].entry))
    && forall a <- w.code :: a !in native
  }

  ghost predicate Fresh(w: World, native: set<nat>, a: nat) {
    a > 0 && !Known(w, native, a)
  }

  /** No trampoline reads the entry point of m. */
  ghost predicate NotHook(w: World, m: nat) {
    forall a <- w.code :: w.code[a] != ToMethod(m)
  }

  /** What replaceMethod leaves when it succeeds: from is entered through a new trampoline at a. */
  function Redirect(w: World, from: nat, stub: Stub, a: nat, interp: bool): World
    requires from in w.methods && stub.to in w.methods
  {
    World(w.methods[from := Art(a, if interp then w.methods[stub.to].interp else w.methods[from].interp)], w.code[a := stub])
  }

  lemma RedirectClosed(w: World, native: set<nat>, from: nat, stub: Stub, a: nat, interp: bool)
    requires Closed(w, native) && from in w.methods && stub.to in w.methods && Fresh(w, native, a)
    requires stub.Fixed? ==> Known(w, native, stub.entry)
    ensures Closed(Redirect(w, from, stub, a, interp), native)
  {
    var w' := Redirect(w, from, stub, a, interp);
    forall m <- w'.methods ensures Known(w', native, w'.methods[m].entry) {
      assert m != from ==> Known(w, native, w.methods[m].entry);
    }
    forall b <- w'.code ensures w'.code[b].Fixed? ==> Known(w', native, w'.code[b].entry) {
      assert b != a && w.code[b].Fixed? ==> Known(w, native, w.code[b].entry);
    }
  }

  /** Code that was there behaves as before when from is redirected, if no trampoline reads its entry. */
  lemma {:induction false} ExecKept(w: World, native: set<nat>, from: nat, stub: Stub, a: nat, interp: bool, x: nat, r: nat, fuel: nat)
    requires Closed(w, native) && from in w.methods && stub.to in w.methods && Fresh(w, native, a)
    requires NotHook(w, from) && Known(w, native, x)
    ensures Exec(Redirect(w, from, stub, a, interp), x, r, fuel) == Exec(w, x, r, fuel)
    decreases fuel
  {
    if x in w.code && fuel > 0 {
      match w.code[x]
      case ToMethod(m) => ExecKept(w, native, from, stub, a, interp, w.methods[m].entry, m, fuel - 1);
      case Fixed(m, e) => ExecKept(w, native, from, stub, a, interp, e, m, fuel - 1);
    }
  }

  /** What a redirection does to every method's meaning. */
  lemma RedirectMeans(w: World, native: set<nat>, from: nat, stub: Stub, a: nat, interp: bool, n: nat, out: (nat, nat))
    requires Closed(w, native) && from in w.methods && stub.to in w.methods && Fresh(w, native, a) && NotHook(w, from)
    requires stub.to != from && (stub.Fixed? ==> stub.entry == w.methods[stub.to].entry)
    requires n in w.methods
    ensures Runs(Redirect(w, from, stub, a, interp), n, out) <==> Runs(w, if n == from then stub.to else n, out)
  {
    var w' := Redirect(w, from, stub, a, interp);
    var source := if n == from then stub.to else n;
    var x := w.methods[source].entry;
    assert Known(w, native, x);
    if Runs(w, source, out) {
      var fuel: nat :| Exec(w, x, source, fuel) == Some(out);
      ExecKept(w, native, from, stub, a, interp, x, source, fuel);
      if n == from { assert Exec(w', a, n, fuel + 1) == Some(out); }
    }
    if Runs(w', n, out) {
      var fuel: nat :| Exec(w', w'.methods[n].entry, n, fuel) == Some(out);
      if n == from {
        assert fuel > 0 && Exec(w', x, source, fuel - 1) == Some(out);
        ExecKept(w, native, from, stub, a, interp, x, source, fuel - 1);
      } else {
        ExecKept(w, native, from, stub, a, interp, x, source, fuel);
      }
    }
  }

  // ---- one install ----

  datatype Hooking = Hooking(target: nat, hook: nat, backup: Option<nat>)

  ghost predicate InMethods(w: World, i: Hooking) {
    i.target in w.methods && i.hook in w.methods && (i.backup.Some? ==> i.backup.value in w.methods)
  }

  /** The backup is redirected first: to where the target leads so far. */
  function BackedUp(w: World, i: Hooking, a: nat, interp: bool): World
    requires InMethods(w, i)
  {
    if i.backup.None? then w
    else Redirect(w, i.backup.value, Fixed(i.target, w.methods[i.target].entry), a, interp)
  }

  /** doBackupAndHook with new trampolines at a and b, as far as its two parts succeeded; the second
      is made whatever became of the first. */
  ghost predicate InstalledAt(w: World, native: set<nat>, i: Hooking, interp: bool, backedUp: bool, hooked: bool, w': World, a: nat, b: nat)
    requires InMethods(w, i)
  {
    var w1 := if backedUp then BackedUp(w, i, a, interp) else w;
    && (backedUp ==> i.backup.Some? && Fresh(w, native, a))
    && (hooked ==> Fresh(w1, native, b))
    && w' == if hooked then Redirect(w1, i.target, ToMethod(i.hook), b, interp) else w1
  }

  ghost predicate PartlyInstalled(w: World, native: set<nat>, i: Hooking, interp: bool, backedUp: bool, hooked: bool, w': World)
    requires InMethods(w, i)
  {
    exists a: nat, b: nat :: InstalledAt(w, native, i, interp, backedUp, hooked, w', a, b)
  }

  /** A successful doBackupAndHook. */
  ghost predicate Installed(w: World, native: set<nat>, i: Hooking, interp: bool, w': World) {
    InMethods(w, i) && PartlyInstalled(w, native, i, interp, i.backup.Some?, true, w')
  }

  predicate Separate(i: Hooking) {
    i.hook != i.target && i.backup != Some(i.target) && i.backup != Some(i.hook)
  }

  /** The method whose meaning n takes over. */
  function Source(i: Hooking, n: nat): nat {
    if n == i.target then i.hook else if i.backup == Some(n) then i.target else n
  }

  lemma ClosedAt(w: World, native: set<nat>, m: nat)
    requires Closed(w, native) && m in w.methods
    ensures Known(w, native, w.methods[m].entry)
  {}

  /** An install gives the target the hook's meaning, the backup the target's, and no other method a new one. */
  lemma InstallMeans(w: World, native: set<nat>, i: Hooking, interp: bool, w': World, n: nat, out: (nat, nat))
    requires Closed(w, native) && Installed(w, native, i, interp, w') && Separate(i) && n in w.methods
    requires NotHook(w, i.target) && (i.backup.Some? ==> NotHook(w, i.backup.value))
    ensures Closed(w', native) && w'.methods.Keys == w.methods.Keys
    ensures Runs(w', n, out) <==> Runs(w, Source(i, n), out)
    ensures forall m: nat :: m != i.hook && NotHook(w, m) ==> NotHook(w', m)
  {
    hide Runs, Closed;
    var a: nat, b: nat :| InstalledAt(w, native, i, interp, i.backup.Some?, true, w', a, b);
    var w1 := BackedUp(w, i, a, interp);
    if i.backup.Some? {
      var stub := Fixed(i.target, w.methods[i.target].entry);
      ClosedAt(w, native, i.target);
      RedirectClosed(w, native, i.backup.value, stub, a, interp);
      RedirectMeans(w, native, i.backup.value, stub, a, interp, n, out);
      RedirectMeans(w, native, i.backup.value, stub, a, interp, i.hook, out);
    }
    RedirectClosed(w1, native, i.target, ToMethod(i.hook), b, interp);
    RedirectMeans(w1, native, i.target, ToMethod(i.hook), b, interp, n, out);
  }

  // ---- any sequence of installs ----

  /** Worlds before, between and after installs that start without trampolines. */
  ghost predicate History(ws: seq<World>, hs: seq<Hooking>, native: set<nat>, interp: bool) {
    && |ws| == |hs| + 1 && Closed(ws[0], native) && ws[0].code == map[]
    && forall k :: 0 <= k < |hs| ==> Installed(ws[k], native, hs[k], interp, ws[k + 1])
  }

  /** Hooks and backups are not targets, hooks are not backups, and no backup is used twice. */
  predicate WellUsed(hs: seq<Hooking>) {
    forall j, k :: 0 <= j < |hs| && 0 <= k < |hs| ==>
      && hs[j].hook != hs[k].target && hs[j].backup != Some(hs[k].target) && hs[j].backup != Some(hs[k].hook)
      && (j != k && hs[j].backup.Some? ==> hs[j].backup != hs[k].backup)
  }

  ghost predicate NoHook(hs: seq<Hooking>, m: nat) {
    forall k :: 0 <= k < |hs| ==> hs[k].hook != m
  }

  lemma {:induction false} HistoryAt(ws: seq<World>, hs: seq<Hooking>, native: set<nat>, interp: bool, k: nat)
    requires History(ws, hs, native, interp) && WellUsed(hs) && k <= |hs|
    ensures Closed(ws[k], native) && ws[k].methods.Keys == ws[0].methods.Keys
    ensures forall m: nat :: NoHook(hs, m) ==> NotHook(ws[k], m)
    decreases k
  {
    hide Closed, Installed;
    if k > 0 {
      HistoryAt(ws, hs, native, interp, k - 1);
      var i := hs[k - 1];
      assert Installed(ws[k - 1], native, i, interp, ws[k]);
      assert InMethods(ws[k - 1], i) by { InstalledIn(ws[k - 1], native, i, interp, ws[k]); }
      assert NoHook(hs, i.target);
      if i.backup.Some? { assert NoHook(hs, i.backup.value); }
      InstallMeans(ws[k - 1], native, i, interp, ws[k], i.target, (0, 0));
    }
  }

  lemma InstalledIn(w: World, native: set<nat>, i: Hooking, interp: bool, w': World)
    requires Installed(w, native, i, interp, w')
    ensures InMethods(w, i)
  {}

  lemma StepMeans(ws: seq<World>, hs: seq<Hooking>, native: set<nat>, interp: bool, k: nat, n: nat, out: (nat, nat))
    requires History(ws, hs, native, interp) && WellUsed(hs) && k < |hs| && n in ws[0].methods
    ensures Runs(ws[k + 1], n, out) <==> Runs(ws[k], Source(hs[k], n), out)
  {
    hide Closed, Installed, Runs;
    HistoryAt(ws, hs, native, interp, k);
    var i := hs[k];
    assert NoHook(hs, i.target);
    if i.backup.Some? { assert NoHook(hs, i.backup.value); }
    InstallMeans(ws[k], native, i, interp, ws[k + 1], n, out);
  }

  /** From install j to install k, n is neither target nor backup. */
  predicate Untouched(hs: seq<Hooking>, n: nat, j: nat, k: nat)
    requires j <= k <= |hs|
  {
    forall i :: j <= i < k ==> hs[i].target != n && hs[i].backup != Some(n)
  }

  lemma {:induction false} Kept(ws: seq<World>, hs: seq<Hooking>, native: set<nat>, interp: bool, n: nat, j: nat, k: nat, out: (nat, nat))
    requires History(ws, hs, native, interp) && WellUsed(hs) && j <= k <= |hs| && n in ws[0].methods && Untouched(hs, n, j, k)
    ensures Runs(ws[k], n, out) <==> Runs(ws[j], n, out)
    decreases k - j
  {
    hide Runs, History;
    if j < k {
      Kept(ws, hs, native, interp, n, j, k - 1, out);
      StepMeans(ws, hs, native, interp, k - 1, n, out);
    }
  }

  /** Before any install a method runs its own code. */
  lemma OwnCode(w: World, n: nat, out: (nat, nat))
    requires w.code == map[] && n in w.methods
    ensures Runs(w, n, out) <==> out == (w.methods[n].entry, n)
  {
    assert Exec(w, w.methods[n].entry, n, 0) == Some((w.methods[n].entry, n));
  }

  lemma InvolvedIn(ws: seq<World>, hs: seq<Hooking>, native: set<nat>, interp: bool, i: nat)
    requires History(ws, hs, native, interp) && WellUsed(hs) && i < |hs|
    ensures InMethods(ws[0], hs[i])
  {
    HistoryAt(ws, hs, native, interp, i);
    assert Installed(ws[i], native, hs[i], interp, ws[i + 1]);
    assert forall m <- ws[i].methods.Keys :: m in ws[0].methods.Keys;
  }

  /** After any installs, a call of a target runs the latest hook's own code, as that hook. */
  lemma TargetRunsLatestHook(ws: seq<World>, hs: seq<Hooking>, native: set<nat>, interp: bool, i: nat, out: (nat, nat))
    requires History(ws, hs, native, interp) && WellUsed(hs) && i < |hs|
    requires forall k :: i < k < |hs| ==> hs[k].target != hs[i].target
    ensures hs[i].hook in ws[0].methods
    ensures Runs(ws[|hs|], hs[i].target, out) <==> out == (ws[0].methods[hs[i].hook].entry, hs[i].hook)
  {
    hide Runs;
    InvolvedIn(ws, hs, native, interp, i);
    Kept(ws, hs, native, interp, hs[i].target, i + 1, |hs|, out);
    StepMeans(ws, hs, native, interp, i, hs[i].target, out);
    Kept(ws, hs, native, interp, hs[i].hook, 0, i, out);
    OwnCode(ws[0], hs[i].hook, out);
  }

  /** A call of the i-th backup runs exactly what its target ran just before the i-th install. */
  lemma BackupRunsTargetBefore(ws: seq<World>, hs: seq<Hooking>, native: set<nat>, interp: bool, i: nat, out: (nat, nat))
    requires History(ws, hs, native, interp) && WellUsed(hs) && i < |hs| && hs[i].backup.Some?
    ensures Runs(ws[|hs|], hs[i].backup.value, out) <==> Runs(ws[i], hs[i].target, out)
  {
    hide Runs;
    InvolvedIn(ws, hs, native, interp, i);
    Kept(ws, hs, native, interp, hs[i].backup.value, i + 1, |hs|, out);
    StepMeans(ws, hs, native, interp, i, hs[i].backup.value, out);
  }

  /** The first backup of a target runs the target's original code, as the target. */
  lemma FirstBackupRunsOriginal(ws: seq<World>, hs: seq<Hooking>, native: set<nat>, interp: bool, i: nat, out: (nat, nat))
    requires History(ws, hs, native, interp) && WellUsed(hs) && i < |hs| && hs[i].backup.Some?
    requires forall k :: 0 <= k < i ==> hs[k].target != hs[i].target
    ensures hs[i].target in ws[0].methods
    ensures Runs(ws[|hs|], hs[i].backup.value, out) <==> out == (ws[0].methods[hs[i].target].entry, hs[i].target)
  {
    hide Runs;
    InvolvedIn(ws, hs, native, interp, i);
    BackupRunsTargetBefore(ws, hs, native, interp, i, out);
    Kept(ws, hs, native, interp, hs[i].target, 0, i, out);
    OwnCode(ws[0], hs[i].target, out);
  }

  /** A method that is neither target nor backup keeps its own code. */
  lemma OthersRunOwnCode(ws: seq<World>, hs: seq<Hooking>, native: set<nat>, interp: bool, n: nat, out: (nat, nat))
    requires History(ws, hs, native, interp) && WellUsed(hs) && n in ws[0].methods && Untouched(hs, n, 0, |hs|)
    ensures Runs(ws[|hs|], n, out) <==> out == (ws[0].methods[n].entry, n)
  {
    hide Runs;
    Kept(ws, hs, native, interp, n, 0, |hs|, out);
    OwnCode(ws[0], n, out);
  }

  // ---- the interpreter's entry points ----

  /** Where ArtMethod has one, an install gives the target the hook's interpreter entry point and the
      backup the target's; every other one stays. */
  lemma InstallInterp(w: World, native: set<nat>, i: Hooking, interp: bool, w': World, n: nat)
    requires Installed(w, native, i, interp, w') && Separate(i) && n in w.methods
    ensures w'.methods.Keys == w.methods.Keys
    ensures w'.methods[n].interp == w.methods[
      if interp && n == i.target then i.hook else if interp && i.backup == Some(n) then i.target else n].interp
  {}

  lemma {:induction false} InterpKept(ws: seq<World>, hs: seq<Hooking>, native: set<nat>, interp: bool, n: nat, j: nat, k: nat)
    requires History(ws, hs, native, interp) && WellUsed(hs) && j <= k <= |hs| && n in ws[0].methods
    requires interp ==> Untouched(hs, n, j, k)
    ensures n in ws[j].methods && n in ws[k].methods && ws[k].methods[n].interp == ws[j].methods[n].interp
    decreases k - j
  {
    hide Closed, Installed;
    HistoryAt(ws, hs, native, interp, k);
    if j < k {
      InterpKept(ws, hs, native, interp, n, j, k - 1);
      InstallInterp(ws[k - 1], native, hs[k - 1], interp, ws[k], n);
    }
  }

  /** After any installs a target has its latest hook's own interpreter entry point. */
  lemma TargetInterpIsHooks(ws: seq<World>, hs: seq<Hooking>, native: set<nat>, interp: bool, i: nat)
    requires History(ws, hs, native, interp) && WellUsed(hs) && i < |hs| && interp
    requires forall k :: i < k < |hs| ==> hs[k].target != hs[i].target
    ensures hs[i].target in ws[|hs|].methods && hs[i].hook in ws[0].methods
    ensures ws[|hs|].methods[hs[i].target].interp == ws[0].methods[hs[i].hook].interp
  {
    hide Closed, Installed;
    InvolvedIn(ws, hs, native, interp, i);
    InterpKept(ws, hs, native, interp, hs[i].target, i + 1, |hs|);
    InterpKept(ws, hs, native, interp, hs[i].hook, 0, i);
    HistoryAt(ws, hs, native, interp, i);
    InstallInterp(ws[i], native, hs[i], interp, ws[i + 1], hs[i].target);
  }

  /** The i-th backup has the interpreter entry point that its target had just before the i-th install. */
  lemma BackupInterpIsTargets(ws: seq<World>, hs: seq<Hooking>, native: set<nat>, interp: bool, i: nat)
    requires History(ws, hs, native, interp) && WellUsed(hs) && i < |hs| && hs[i].backup.Some? && interp
    ensures hs[i].backup.value in ws[|hs|].methods && hs[i].target in ws[i].methods
    ensures ws[|hs|].methods[hs[i].backup.value].interp == ws[i].methods[hs[i].target].interp
  {
    hide Closed, Installed;
    InvolvedIn(ws, hs, native, interp, i);
    InterpKept(ws, hs, native, interp, hs[i].backup.value, i + 1, |hs|);
    HistoryAt(ws, hs, native, interp, i);
    InstallInterp(ws[i], native, hs[i], interp, ws[i + 1], hs[i].backup.value);
  }

  /** A method that is neither target nor backup keeps its interpreter entry point, and every method
      does where ArtMethod has none. */
  lemma OthersKeepInterp(ws: seq<World>, hs: seq<Hooking>, native: set<nat>, interp: bool, n: nat)
    requires History(ws, hs, native, interp) && WellUsed(hs) && n in ws[0].methods && (interp ==> Untouched(hs, n, 0, |hs|))
    ensures n in ws[|hs|].methods && ws[|hs|].methods[n].interp == ws[0].methods[n].interp
  {
    hide Closed, Installed;
    InterpKept(ws, hs, native, interp, n, 0, |hs|);
  }

  // ---- the running program ----

  /** The trampoline is in memory, entered at a; a hook's first four bytes are its code_size_. */
  ghost predicate Placed(m: Machine, offset: byte, blocks: seq<Block>, a: nat, stub: Stub) {
    && stub.to < Pow2(WordBits(m))
    && match stub
       case ToMethod(to) => a >= 4 && Block(a - 4, HookCode(m, offset, to)) in blocks
       case Fixed(to, entry) => entry < Pow2(WordBits(m)) && Block(a, BackupCode(m, to, entry)) in blocks
  }

  ghost predicate AllPlaced(m: Machine, offset: byte, blocks: seq<Block>, code: map<nat, Stub>) {
    forall a <- code :: Placed(m, offset, blocks, a, code[a])
  }

  ghost predicate Addresses(m: Machine, methods: map<nat, Art>) {
    forall a <- methods :: a < Pow2(WordBits(m)) && methods[a].entry < Pow2(WordBits(m))
  }

  /** The block and the entry address of a trampoline. */
  ghost function BlockOf(m: Machine, offset: byte, a: nat, stub: Stub): Block
    requires stub.ToMethod? ==> a >= 4
  {
    match stub
    case ToMethod(to) => Block(a - 4, HookCode(m, offset, to))
    case Fixed(to, entry) => Block(a, BackupCode(m, to, entry))
  }

  lemma EntryInside(m: Machine, offset: byte, a: nat, stub: Stub)
    requires stub.ToMethod? ==> a >= 4
    ensures var b := BlockOf(m, offset, a, stub); b.at <= a < b.at + |b.code|
  {
    Sizes(m, offset);
  }

  /** A trampoline made for a redirection is entered at a new address, and everything else stays in place. */
  lemma StubAdded(tr: Trampolines, blocks: seq<Block>, w: World, from: nat, stub: Stub, a: nat, interp: bool)
    requires tr.Valid() && (stub.ToMethod? ==> a > 4) && (stub.Fixed? ==> a > 0)
    requires tr.blocks == blocks + [BlockOf(tr.machine, tr.offset, a, stub)]
    requires AllPlaced(tr.machine, tr.offset, blocks, w.code) && Closed(w, tr.reserved) && Addresses(tr.machine, w.methods)
    requires from in w.methods && stub.to in w.methods
    requires stub.Fixed? ==> stub.entry == w.methods[stub.to].entry
    ensures Fresh(w, tr.reserved, a)
    ensures var w' := Redirect(w, from, stub, a, interp);
      Closed(w', tr.reserved) && AllPlaced(tr.machine, tr.offset, tr.blocks, w'.code) && Addresses(tr.machine, w'.methods)
  {
    hide HookCode, BackupCode, Sound, Pow2, Closed, HookTemplate;
    var m, k := tr.machine, tr.offset;
    var b := BlockOf(m, k, a, stub);
    EntryInside(m, k, a, stub);
    NewBlockFresh(WordBytes(m), tr.mem, tr.spaces, tr.reserved, blocks, b, tr.cursor, tr.end, a);
    forall x <- w.code ensures x != a && Placed(m, k, tr.blocks, x, w.code[x]) {
      assert Placed(m, k, blocks, x, w.code[x]);
      EntryInside(m, k, x, w.code[x]);
    }
    assert stub.Fixed? ==> Known(w, tr.reserved, stub.entry) by {
      if stub.Fixed? { ClosedAt(w, tr.reserved, stub.to); }
    }
    RedirectClosed(w, tr.reserved, from, stub, a, interp);
  }

  lemma EntryNotNull(w: World, native: set<nat>, m: nat)
    requires Closed(w, native) && m in w.methods
    ensures w.methods[m].entry != 0
  {
    ClosedAt(w, native, m);
  }

  datatype Replaced = Done | Failed | Crashed

  class Runtime {
    const tr: Trampolines
    /** Whether ArtMethod has an entry point for the interpreter. */
    const interp: bool
    var methods: map<nat, Art>
    ghost var code: map<nat, Stub>

    ghost function Now(): World
      reads this
    {
      World(methods, code)
    }

    ghost predicate Valid()
      reads this, tr
    {
      && tr.Valid() && Closed(Now(), tr.reserved)
      && AllPlaced(tr.machine, tr.offset, tr.blocks, code) && Addresses(tr.machine, methods)
    }

    constructor (tr: Trampolines, interp: bool, methods: map<nat, Art>)
      requires tr.Valid() && 0 !in tr.reserved && Addresses(tr.machine, methods)
      requires forall m <- methods :: methods[m].entry in tr.reserved
      ensures Valid() && this.tr == tr && this.interp == interp && this.methods == methods && code == map[]
    {
      this.tr, this.interp, this.methods, code := tr, interp, methods, map[];
    }

    /** replaceMethod. */
    method ReplaceMethod(from: nat, to: nat, isBackup: bool) returns (res: Replaced)
      requires Valid() && from in methods && to in methods
      modifies this, tr
      ensures Valid() && tr.offset == old(tr.offset)
      ensures res != Done ==> Now() == old(Now())
      ensures res == Done ==>
        var stub := if isBackup then Fixed(to, old(methods)[to].entry) else ToMethod(to);
        exists a: nat :: Fresh(old(Now()), tr.reserved, a) && Now() == Redirect(old(Now()), from, stub, a, interp)
    {
      hide HookCode, BackupCode, Closed, AllPlaced, Addresses, Pow2;
      ghost var w := Now();
      ghost var blocks := tr.blocks;
      EntryNotNull(w, tr.reserved, to);
      var entry := methods[to].entry;
      var r := tr.GenTrampoline(to, if isBackup then entry else 0);
      match r
      case NoSpace => return Failed;
      case Fault => return Crashed;
      case Code(a) =>
        ghost var stub := if isBackup then Fixed(to, entry) else ToMethod(to);
        StubAdded(tr, blocks, w, from, stub, a, interp);
        methods := methods[from := methods[from].(entry := a)];
        if interp {
          methods := methods[from := methods[from].(interp := methods[to].interp)];
        }
        code := code[a := stub];
        assert Now() == Redirect(w, from, stub, a, interp);
        return Done;
    }

    /** doBackupAndHook: how many of the replacements failed. The second is made even if the first failed. */
    method DoBackupAndHook(i: Hooking) returns (res: nat, crashed: bool, ghost backedUp: bool, ghost hooked: bool)
      requires Valid() && InMethods(Now(), i)
      modifies this, tr
      ensures Valid() && tr.offset == old(tr.offset)
      ensures PartlyInstalled(old(Now()), tr.reserved, i, interp, backedUp, hooked, Now())
      ensures !crashed ==> res == (if i.backup.Some? && !backedUp then 1 else 0) + (if hooked then 0 else 1)
      ensures crashed ==> !hooked
      ensures res == 0 && !crashed ==> Installed(old(Now()), tr.reserved, i, interp, Now())
    {
      hide Closed, AllPlaced, Addresses, Fresh, InstalledAt;
      ghost var w := Now();
      res, backedUp, hooked := 0, false, false;
      ghost var a: nat, b: nat := 0, 0;
      NothingInstalled(w, tr.reserved, i, interp);
      if i.backup.Some? {
        var r := ReplaceMethod(i.backup.value, i.target, true);
        if r.Crashed? { return res, true, backedUp, hooked; }
        if r.Done? {
          backedUp := true;
          a :| Fresh(w, tr.reserved, a) && Now() == BackedUp(w, i, a, interp);
        } else {
          res := res + 1;
        }
      }
      ghost var w1 := Now();
      PartOne(w, tr.reserved, i, interp, backedUp, w1, a);
      var r := ReplaceMethod(i.target, i.hook, false);
      if r.Crashed? { return res, true, backedUp, hooked; }
      if r.Failed? { return res + 1, false, backedUp, hooked; }
      hooked := true;
      b :| Fresh(w1, tr.reserved, b) && Now() == Redirect(w1, i.target, ToMethod(i.hook), b, interp);
      PartTwo(w, tr.reserved, i, interp, backedUp, w1, Now(), a, b);
      return res, false, backedUp, hooked;
    }
  }

  lemma NothingInstalled(w: World, native: set<nat>, i: Hooking, interp: bool)
    requires InMethods(w, i)
    ensures PartlyInstalled(w, native, i, interp, false, false, w)
  {
    assert InstalledAt(w, native, i, interp, false, false, w, 0, 0);
  }

  lemma PartOne(w: World, native: set<nat>, i: Hooking, interp: bool, backedUp: bool, w1: World, a: nat)
    requires InMethods(w, i) && (backedUp ==> i.backup.Some? && Fresh(w, native, a))
    requires w1 == if backedUp then BackedUp(w, i, a, interp) else w
    ensures PartlyInstalled(w, native, i, interp, backedUp, false, w1)
  {
    assert InstalledAt(w, native, i, interp, backedUp, false, w1, a, 0);
  }

  lemma PartTwo(w: World, native: set<nat>, i: Hooking, interp: bool, backedUp: bool, w1: World, w2: World, a: nat, b: nat)
    requires InMethods(w, i) && InMethods(w1, i) && (backedUp ==> i.backup.Some? && Fresh(w, native, a)) && Fresh(w1, native, b)
    requires w1 == if backedUp then BackedUp(w, i, a, interp) else w
    requires w2 == Redirect(w1, i.target, ToMethod(i.hook), b, interp)
    ensures PartlyInstalled(w, native, i, interp, backedUp, true, w2)
  {
    assert InstalledAt(w, native, i, interp, backedUp, true, w2, a, b);
  }

  /** The bytes that memory holds from an address on. */
  ghost predicate BytesAt(mem: map<nat, byte>, a: nat, s: seq<byte>) {
    forall k :: 0 <= k < |s| ==> a + k in mem && mem[a + k] == s[k]
  }

  lemma TailInMemory(mem: map<nat, byte>, b: Block, skip: nat)
    requires InMemory(mem, b) && skip <= |b.code|
    ensures BytesAt(mem, b.at + skip, b.code[skip..])
  {}

  /** A trampoline of the running program does what its stub says: whatever the registers hold, the
      bytes in memory put the method in its register and go on to the fixed entry point, or to the
      word at the method plus the offset. */
  lemma StubsAreCode(rt: Runtime, a: nat, c: Cpu)
    requires rt.Valid() && a in rt.code && c.pc == 0
    ensures var stub, m := rt.code[a], rt.tr.machine;
      var target := if stub.Fixed? then TrampolineCode.Known(stub.entry)
                    else WordAt(Word(WordBits(m), stub.to + Offset(m, rt.tr.offset)));
      exists s: seq<byte> :: BytesAt(rt.tr.mem, a, s) && RunCode(m, s, c, 4) == Some(Jump(TrampolineCode.Known(stub.to), target, c.stack))
  {
    hide HookCode, BackupCode, Sound, Closed, RunCode, HookTemplate, Word, Pow2, BytesAt;
    var tr, stub, m := rt.tr, rt.code[a], rt.tr.machine;
    assert Placed(m, tr.offset, tr.blocks, a, stub);
    var b := BlockOf(m, tr.offset, a, stub);
    Sizes(m, tr.offset);
    BlockInMemory(WordBytes(m), tr.mem, tr.spaces, tr.reserved, tr.blocks, tr.cursor, tr.end, b);
    TailInMemory(tr.mem, b, a - b.at);
    match stub
    case ToMethod(to) => HookMeans(m, tr.offset, to, c);
    case Fixed(to, entry) =>
      BackupMeans(m, to, entry, c);
      assert b.code[0..] == b.code;
  }
}
