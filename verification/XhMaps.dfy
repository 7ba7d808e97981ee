/** Reading the memory map in xh_core_refresh_impl: which lines name a library and what
    a refresh makes of them. */
module XhMaps {
  import opened Wrappers
  import opened XhRules

  datatype Perm = Perm(r: bool, w: bool, x: bool, priv: bool)

  /** A parsed line; `oom` says that the allocation for a new entry fails at this line. */
  datatype MapLine = MapLine(base: nat, perm: Perm, offset: nat, pathname: string, oom: bool)

  /** The prev_* variables: the last non-executable mapping. */
  datatype Prev = Prev(base: nat, read: bool, offset: nat, pathname: string)

  const PREV0 := Prev(0, false, 0, "")

  /** The lines the loop gets past before it looks at the x permission. */
  ghost predicate Named(line: MapLine) {
    && line.perm.priv && (line.perm.r || line.perm.w || line.perm.x)
    && line.pathname != "" && line.pathname[0] != '['
  }

  ghost predicate Records(line: MapLine) {
    Named(line) && !line.perm.x
  }

  /** The prev_* variables after some lines: they describe the last recorded line. */
  ghost function PrevOf(lines: seq<MapLine>): Prev {
    if lines == [] then PREV0
    else
      var line := lines[|lines| - 1];
      if Records(line) then Prev(line.base, line.perm.r, line.offset, line.pathname)
      else PrevOf(lines[..|lines| - 1])
  }

  /** A library found at a line: its path and the address of its first byte. */
  datatype Entry = Entry(path: string, base: nat, oom: bool)

  /** The environment a refresh looks at: the rules and which addresses hold an ELF header. */
  datatype Env = Env(hooks: seq<HookInfo>, ignores: seq<IgnoreInfo>, isElf: nat -> bool, elfInit: (nat, string) -> bool)

  /** The load address an executable line stands for, if it continues the recorded mapping. */
  ghost function LoadBase(line: MapLine, prev: Prev): Option<nat> {
    if line.offset == 0 then Some(line.base)
    else if prev.pathname == line.pathname && prev.offset == 0 && prev.read then Some(prev.base)
    else None
  }

  ghost predicate Eligible(env: Env, line: MapLine, prev: Prev) {
    && Named(line) && line.perm.x && LoadBase(line, prev).Some?
    && Preselected(env.hooks, env.ignores, line.pathname) && env.isElf(LoadBase(line, prev).value)
  }

  /** The libraries a refresh considers, in line order. */
  ghost function Entries(env: Env, lines: seq<MapLine>): seq<Entry> {
    if lines == [] then []
    else
      var before, line := lines[..|lines| - 1], lines[|lines| - 1];
      var prev := PrevOf(before);
      Entries(env, before) +
      if Eligible(env, line, prev) then [Entry(line.pathname, LoadBase(line, prev).value, line.oom)] else []
  }

  /** One call of xh_core_hook. */
  datatype Run = Run(path: string, base: nat, tried: seq<HookInfo>)

  ghost function RunOf(env: Env, path: string, base: nat): Run {
    Run(path, base, if env.elfInit(base, path) then Applicable(env.hooks, env.ignores, path) else [])
  }

  /** What the refresh has done so far: the tree still to be matched, the new tree, the hooking. */
  datatype Progress = Progress(left: map<string, nat>, done: map<string, nat>, runs: seq<Run>)

  ghost function Step(env: Env, s: Progress, e: Entry): Progress {
    if e.path in s.left then
      Progress(s.left - {e.path}, s.done[e.path := e.base],
               if s.left[e.path] == e.base then s.runs else s.runs + [RunOf(env, e.path, e.base)])
    else if e.path in s.done || e.oom then s
    else Progress(s.left, s.done[e.path := e.base], s.runs + [RunOf(env, e.path, e.base)])
  }

  ghost function Fold(env: Env, s: Progress, es: seq<Entry>): Progress {
    if es == [] then s else Step(env, Fold(env, s, es[..|es| - 1]), es[|es| - 1])
  }

  lemma FoldNext(env: Env, s: Progress, lines: seq<MapLine>, i: nat)
    requires i < |lines|
    ensures var prev := PrevOf(lines[..i]);
            && PrevOf(lines[..i + 1]) == (if Records(lines[i]) then Prev(lines[i].base, lines[i].perm.r, lines[i].offset, lines[i].pathname) else prev)
            && Fold(env, s, Entries(env, lines[..i + 1])) ==
               if Eligible(env, lines[i], prev)
               then Step(env, Fold(env, s, Entries(env, lines[..i])), Entry(lines[i].pathname, LoadBase(lines[i], prev).value, lines[i].oom))
               else Fold(env, s, Entries(env, lines[..i]))
  {
    assert lines[..i + 1][..i] == lines[..i];
    var es, prev := Entries(env, lines[..i]), PrevOf(lines[..i]);
    if Eligible(env, lines[i], prev) {
      var e := Entry(lines[i].pathname, LoadBase(lines[i], prev).value, lines[i].oom);
      assert (es + [e])[..|es|] == es;
    } else {
      assert es + [] == es;
    }
  }

  // ---- what the steps add up to ----

  /** The base at the first entry for a path. */
  ghost function FirstBase(es: seq<Entry>, path: string): Option<nat> {
    if es == [] then None
    else if es[0].path == path then Some(es[0].base)
    else FirstBase(es[1..], path)
  }

  /** The hooking of a refresh that starts from the libraries in old: one run for each first
      entry of a path that is new or has moved. */
  ghost function RunsFor(env: Env, known: map<string, nat>, es: seq<Entry>): seq<Run> {
    if es == [] then []
    else
      var before, e := es[..|es| - 1], es[|es| - 1];
      RunsFor(env, known, before) +
      if FirstBase(before, e.path) == None && !(e.path in known && known[e.path] == e.base)
      then [RunOf(env, e.path, e.base)] else []
  }

  lemma {:induction false} FirstBaseSnoc(es: seq<Entry>, e: Entry, path: string)
    ensures FirstBase(es + [e], path) ==
            if FirstBase(es, path) != None then FirstBase(es, path) else if e.path == path then Some(e.base) else None
  {
    if es == [] {
      assert es + [e] == [e] && [e][1..] == [];
    } else {
      assert (es + [e])[1..] == es[1..] + [e];
      FirstBaseSnoc(es[1..], e, path);
    }
  }

  /** What the fold has reached after the entries es, when no allocation failed. */
  ghost predicate Reached(known: map<string, nat>, es: seq<Entry>, s: Progress) {
    && (forall p :: (p in s.done <==> FirstBase(es, p) != None) && (p in s.done ==> FirstBase(es, p) == Some(s.done[p])))
    && (forall p :: p in s.left <==> p in known && FirstBase(es, p) == None)
    && (forall p :: p in s.left ==> s.left[p] == known[p])
  }

  /** The entries that count: all but those of unknown paths whose allocation fails. */
  ghost function Counted(known: map<string, nat>, es: seq<Entry>): seq<Entry> {
    if es == [] then []
    else
      var before, e := Counted(known, es[..|es| - 1]), es[|es| - 1];
      if e.oom && e.path !in known then before else before + [e]
  }

  /** Without failures every entry counts. */
  lemma {:induction false} AllCounted(known: map<string, nat>, es: seq<Entry>)
    requires forall i :: 0 <= i < |es| ==> !es[i].oom
    ensures Counted(known, es) == es
  {
    if es != [] {
      AllCounted(known, es[..|es| - 1]);
      assert es == es[..|es| - 1] + [es[|es| - 1]];
    }
  }

  lemma ReachedStep(env: Env, known: map<string, nat>, es: seq<Entry>, s: Progress, e: Entry)
    requires Reached(known, es, s)
    ensures Reached(known, if e.oom && e.path !in known then es else es + [e], Step(env, s, e))
  {
    forall p ensures FirstBase(es + [e], p) ==
          if FirstBase(es, p) != None then FirstBase(es, p) else if e.path == p then Some(e.base) else None
    {
      FirstBaseSnoc(es, e, p);
    }
  }

  /** Whatever allocations fail: the new tree maps every path to the base of its first entry that
      counts, the hooks ran as RunsFor says for these, and what is left are the libraries that are gone. */
  lemma {:induction false} RefreshResult(env: Env, known: map<string, nat>, es: seq<Entry>)
    ensures var s := Fold(env, Progress(known, map[], []), es);
            Reached(known, Counted(known, es), s) && s.runs == RunsFor(env, known, Counted(known, es))
  {
    hide RunOf;
    if es != [] {
      var before, e := es[..|es| - 1], es[|es| - 1];
      RefreshResult(env, known, before);
      var counted := Counted(known, before);
      assert (counted + [e])[..|counted|] == counted;
      ReachedStep(env, known, counted, Fold(env, Progress(known, map[], []), before), e);
    }
  }

  /** How often the hooks of a path ran. */
  ghost function Count(runs: seq<Run>, path: string): nat {
    if runs == [] then 0
    else Count(runs[..|runs| - 1], path) + if runs[|runs| - 1].path == path then 1 else 0
  }

  /** The hooks ran exactly once for each path that is new or has moved, at its first base, and never
      for an absent or an unchanged one. */
  lemma {:induction false} RunsOnce(env: Env, known: map<string, nat>, es: seq<Entry>, path: string)
    ensures var b := FirstBase(es, path); var runs := RunsFor(env, known, es);
            var due := b.Some? && !(path in known && known[path] == b.value);
            && Count(runs, path) == (if due then 1 else 0)
            && (due ==> RunOf(env, path, b.value) in runs)
            && forall r <- runs :: r.path == path ==> due && r == RunOf(env, path, b.value)
  {
    if es != [] {
      var before, e := es[..|es| - 1], es[|es| - 1];
      assert es == before + [e];
      RunsOnce(env, known, before, path);
      FirstBaseSnoc(before, e, path);
      FirstBaseSnoc(before, e, e.path);
      var runs := RunsFor(env, known, before);
      assert (runs + [RunOf(env, e.path, e.base)])[..|runs|] == runs;
      assert runs + [] == runs;
    }
  }

  /** With any allocation failures: both trees stay key-disjoint, so a path taken from the old
      tree is never already in the new one. */
  lemma {:induction false} StaysDisjoint(env: Env, s: Progress, es: seq<Entry>)
    requires s.left.Keys !! s.done.Keys
    ensures Fold(env, s, es).left.Keys !! Fold(env, s, es).done.Keys
  {
    if es != [] { StaysDisjoint(env, s, es[..|es| - 1]); }
  }

  lemma {:induction false} NoRuns(env: Env, m: map<string, nat>, es: seq<Entry>)
    requires forall p :: FirstBase(es, p) != None ==> p in m && FirstBase(es, p) == Some(m[p])
    ensures RunsFor(env, m, es) == []
  {
    if es != [] {
      var before, e := es[..|es| - 1], es[|es| - 1];
      assert es == before + [e];
      forall p | FirstBase(before, p) != None ensures p in m && FirstBase(before, p) == Some(m[p]) {
        FirstBaseSnoc(before, e, p);
      }
      NoRuns(env, m, before);
      FirstBaseSnoc(before, e, e.path);
    }
  }

  /** No hooks run exactly when every path is known at its first base. */
  lemma NoRunsExact(env: Env, m: map<string, nat>, es: seq<Entry>)
    ensures RunsFor(env, m, es) == [] <==> forall p :: FirstBase(es, p) != None ==> p in m && FirstBase(es, p) == Some(m[p])
  {
    if RunsFor(env, m, es) == [] {
      forall p | FirstBase(es, p) != None ensures p in m && FirstBase(es, p) == Some(m[p]) {
        RunsOnce(env, m, es, p);
      }
    } else if forall p :: FirstBase(es, p) != None ==> p in m && FirstBase(es, p) == Some(m[p]) {
      NoRuns(env, m, es);
    }
  }

  /** Of a known path every entry counts; of an unknown one those with memory. */
  lemma {:induction false} CountedFirst(known: map<string, nat>, es: seq<Entry>, p: string)
    ensures p in known ==> FirstBase(Counted(known, es), p) == FirstBase(es, p)
    ensures p !in known ==> (FirstBase(Counted(known, es), p) == None <==> forall e <- es :: e.path == p ==> e.oom)
  {
    if es != [] {
      var before, e := es[..|es| - 1], es[|es| - 1];
      assert es == before + [e];
      CountedFirst(known, before, p);
      FirstBaseSnoc(before, e, p);
      FirstBaseSnoc(Counted(known, before), e, p);
    }
  }

  /** The same libraries at the same places; memory may fail at others. */
  ghost predicate SameLines(es: seq<Entry>, es': seq<Entry>) {
    |es| == |es'| && forall i :: 0 <= i < |es| ==> es[i].path == es'[i].path && es[i].base == es'[i].base
  }

  lemma {:induction false} SameFirst(es: seq<Entry>, es': seq<Entry>, p: string)
    requires SameLines(es, es')
    ensures FirstBase(es, p) == FirstBase(es', p)
  {
    if es != [] { SameFirst(es[1..], es'[1..], p); }
  }

  /** No failure has passed over the first entry of a path in favour of one at another base. */
  ghost predicate FirstsCount(known: map<string, nat>, es: seq<Entry>) {
    forall p :: FirstBase(Counted(known, es), p) != None ==> FirstBase(Counted(known, es), p) == FirstBase(es, p)
  }

  /** A second refresh over the same lines loses no library, and has each at its first base. It hooks
      nothing, and leaves the same map, exactly when no failure had passed over a first entry and every
      library that was missed is missed again. */
  lemma RefreshAgain(env: Env, known: map<string, nat>, es: seq<Entry>, es': seq<Entry>)
    requires SameLines(es, es')
    ensures var s := Fold(env, Progress(known, map[], []), es);
            var s' := Fold(env, Progress(s.done, map[], []), es');
            && s'.left == map[]
            && (forall p :: p in s.done ==> p in s'.done && FirstBase(es, p) == Some(s'.done[p]))
            && (s'.runs == [] <==> FirstsCount(known, es) && forall e <- es' :: e.path in s.done || e.oom)
            && (s'.runs == [] ==> s'.done == s.done)
  {
    hide Fold, RunsFor, Counted, FirstBase;
    var s := Fold(env, Progress(known, map[], []), es);
    var s' := Fold(env, Progress(s.done, map[], []), es');
    RefreshResult(env, known, es);
    RefreshResult(env, s.done, es');
    forall p
      ensures p in s.done ==> FirstBase(Counted(s.done, es'), p) == FirstBase(es, p)
      ensures p !in s.done ==> (FirstBase(Counted(s.done, es'), p) == None <==> forall e <- es' :: e.path == p ==> e.oom)
      ensures FirstBase(Counted(known, es), p) != None ==> FirstBase(es, p) != None
    {
      CountedFirst(s.done, es', p);
      SameFirst(es, es', p);
      CountedPart(known, es, p);
    }
    NoRunsExact(env, s.done, Counted(s.done, es'));
    assert s'.left == map[];
  }

  lemma {:induction false} CountedPart(known: map<string, nat>, es: seq<Entry>, p: string)
    ensures FirstBase(Counted(known, es), p) != None ==> FirstBase(es, p) != None
  {
    if es != [] {
      var before, e := es[..|es| - 1], es[|es| - 1];
      assert es == before + [e];
      CountedPart(known, before, p);
      FirstBaseSnoc(before, e, p);
      FirstBaseSnoc(Counted(known, before), e, p);
    }
  }

  /** In particular it hooks nothing when no allocation fails. */
  lemma RefreshAgainInMemory(env: Env, known: map<string, nat>, es: seq<Entry>)
    requires forall i :: 0 <= i < |es| ==> !es[i].oom
    ensures var s := Fold(env, Progress(known, map[], []), es);
            Fold(env, Progress(s.done, map[], []), es) == Progress(map[], s.done, [])
  {
    hide Fold;
    RefreshAgain(env, known, es, es);
    RefreshResult(env, known, es);
    AllCounted(known, es);
    var s := Fold(env, Progress(known, map[], []), es);
    forall e <- es ensures e.path in s.done { EntryHasBase(es, e); }
  }

  lemma {:induction false} EntryHasBase(es: seq<Entry>, e: Entry)
    requires e in es
    ensures FirstBase(es, e.path) != None
  {
    if es[0] != e { EntryHasBase(es[1..], e); }
  }

  /** A library whose first entry finds no memory and whose second, elsewhere, does is moved and hooked
      again by the next refresh. */
  lemma FailurePassesOver(env: Env)
    ensures var es := [Entry("a", 1, true), Entry("a", 2, false)];
            var s := Fold(env, Progress(map[], map[], []), es);
            s.done == map["a" := 2] && Fold(env, Progress(s.done, map[], []), es).runs != []
  {
    hide RunOf;
    var e, f := Entry("a", 1, true), Entry("a", 2, false);
    var es, start := [e, f], Progress(map[], map[], []);
    assert es[..1] == [e] && [e][..0] == [];
    assert Fold(env, start, [e]) == start;
    var s := Fold(env, start, es);
    assert s.done == map["a" := 2];
    var again := Progress(s.done, map[], []);
    assert Fold(env, again, [e]).runs != [];
    assert |Fold(env, again, es).runs| >= |Fold(env, again, [e]).runs|;
  }

  // ---- what the map file must say ----

  /** Line i loads a library at b: it is a private executable mapping of a file whose path is selected, b
      holds an ELF header, and b is where the line starts, if that is the file's first byte, or else where
      the last private mapping before it that is not executable starts, if that is a readable one of the
      file's first byte. */
  ghost predicate Loads(env: Env, lines: seq<MapLine>, i: nat, path: string, b: nat)
    requires i < |lines|
  {
    && lines[i].perm.priv && lines[i].perm.x
    && lines[i].pathname == path != "" && path[0] != '['
    && Preselected(env.hooks, env.ignores, path) && env.isElf(b)
    && if lines[i].offset == 0 then lines[i].base == b else exists j :: 0 <= j < i && BeginsAt(lines, j, i, path, b)
  }

  ghost predicate BeginsAt(lines: seq<MapLine>, j: nat, i: nat, path: string, b: nat)
    requires j < i <= |lines|
  {
    && lines[j].perm.priv && lines[j].perm.r && !lines[j].perm.x
    && lines[j].pathname == path && lines[j].offset == 0 && lines[j].base == b
    && forall k :: j < k < i ==> NotRecorded(lines[k])
  }

  predicate NotRecorded(line: MapLine) {
    line.perm.x || !line.perm.priv || !(line.perm.r || line.perm.w) || line.pathname == "" || line.pathname[0] == '['
  }

  ghost predicate LastRecorded(lines: seq<MapLine>, j: nat) {
    j < |lines| && Records(lines[j]) && forall k :: j < k < |lines| ==> NotRecorded(lines[k])
  }

  /** The prev_* variables describe the last recorded line, or none. */
  lemma {:induction false} PrevIsLast(lines: seq<MapLine>) returns (j: int)
    ensures j < 0 ==> PrevOf(lines) == PREV0 && forall k :: 0 <= k < |lines| ==> NotRecorded(lines[k])
    ensures j >= 0 ==> LastRecorded(lines, j) && PrevOf(lines) == Prev(lines[j].base, lines[j].perm.r, lines[j].offset, lines[j].pathname)
  {
    if lines == [] {
      j := -1;
    } else if Records(lines[|lines| - 1]) {
      j := |lines| - 1;
    } else {
      j := PrevIsLast(lines[..|lines| - 1]);
    }
  }

  /** The loop takes a line for a library exactly when it loads one, and at the same base. */
  lemma EligibleLoads(env: Env, lines: seq<MapLine>, i: nat, path: string, b: nat)
    requires i < |lines|
    ensures var prev := PrevOf(lines[..i]);
      Loads(env, lines, i, path, b) <==>
        Eligible(env, lines[i], prev) && lines[i].pathname == path && LoadBase(lines[i], prev) == Some(b)
  {
    hide Preselected;
    var prev := PrevOf(lines[..i]);
    var j := PrevIsLast(lines[..i]);
    if Loads(env, lines, i, path, b) && lines[i].offset != 0 {
      var k :| 0 <= k < i && BeginsAt(lines, k, i, path, b);
      assert lines[..i][k] == lines[k];
      assert !NotRecorded(lines[k]);
      assert j == k;
    }
    if Eligible(env, lines[i], prev) && lines[i].pathname == path && LoadBase(lines[i], prev) == Some(b) && lines[i].offset != 0 {
      assert BeginsAt(lines, j, i, path, b);
    }
  }

  ghost predicate EntryLoads(env: Env, lines: seq<MapLine>, e: Entry) {
    exists i :: 0 <= i < |lines| && Loads(env, lines, i, e.path, e.base) && lines[i].oom == e.oom
  }

  /** The entries of a refresh are the libraries that the lines load. */
  lemma {:induction false} EntriesLoad(env: Env, lines: seq<MapLine>, e: Entry)
    ensures e in Entries(env, lines) <==> EntryLoads(env, lines, e)
  {
    hide Eligible, LoadBase, Loads, PrevOf;
    if lines != [] {
      var n := |lines| - 1;
      var before := lines[..n];
      EntriesLoad(env, before, e);
      EligibleLoads(env, lines, n, e.path, e.base);
      if Eligible(env, lines[n], PrevOf(before)) { EligibleHasBase(env, lines[n], PrevOf(before)); }
      assert lines == before + [lines[n]];
      EntryLoadsNext(env, before, lines[n], e);
    }
  }

  lemma EntryLoadsNext(env: Env, before: seq<MapLine>, line: MapLine, e: Entry)
    ensures EntryLoads(env, before + [line], e) <==>
      EntryLoads(env, before, e) || (Loads(env, before + [line], |before|, e.path, e.base) && line.oom == e.oom)
  {
    hide Loads;
    var lines, n := before + [line], |before|;
    LoadsBefore(env, before, lines, e.path);
    if EntryLoads(env, before, e) {
      var i :| 0 <= i < n && Loads(env, before, i, e.path, e.base) && before[i].oom == e.oom;
      assert Loads(env, lines, i, e.path, e.base);
    }
    if EntryLoads(env, lines, e) {
      var i :| 0 <= i <= n && Loads(env, lines, i, e.path, e.base) && lines[i].oom == e.oom;
      if i < n { assert Loads(env, before, i, e.path, e.base); }
    }
  }

  lemma LoadsBefore(env: Env, before: seq<MapLine>, lines: seq<MapLine>, path: string)
    requires before <= lines
    ensures forall i, b: nat :: 0 <= i < |before| ==> (Loads(env, before, i, path, b) <==> Loads(env, lines, i, path, b))
  {
    hide Preselected;
    forall i, b: nat | 0 <= i < |before| ensures Loads(env, before, i, path, b) <==> Loads(env, lines, i, path, b) {
      forall j | 0 <= j < i ensures BeginsAt(before, j, i, path, b) <==> BeginsAt(lines, j, i, path, b) {
        assert forall k :: j < k < i ==> before[k] == lines[k];
      }
    }
  }

  /** Line i is the first to load the path of those that count: all of a known path, and of an unknown one
      those at which memory does not fail. */
  ghost predicate LoadsFirst(env: Env, known: map<string, nat>, lines: seq<MapLine>, i: nat, path: string, b: nat)
    requires i < |lines|
  {
    && Loads(env, lines, i, path, b) && (path in known || !lines[i].oom)
    && forall j, c: nat :: 0 <= j < i && Loads(env, lines, j, path, c) ==> path !in known && lines[j].oom
  }

  ghost predicate LoadedAt(env: Env, known: map<string, nat>, lines: seq<MapLine>, path: string, b: nat) {
    exists i :: 0 <= i < |lines| && LoadsFirst(env, known, lines, i, path, b)
  }

  /** No line that counts loads the path. */
  ghost predicate NeverLoaded(env: Env, known: map<string, nat>, lines: seq<MapLine>, path: string) {
    forall i, c: nat :: 0 <= i < |lines| && Loads(env, lines, i, path, c) ==> path !in known && lines[i].oom
  }

  lemma LoadsFirstBefore(env: Env, known: map<string, nat>, before: seq<MapLine>, lines: seq<MapLine>, i: nat, path: string, b: nat)
    requires before <= lines && i < |before|
    ensures LoadsFirst(env, known, before, i, path, b) <==> LoadsFirst(env, known, lines, i, path, b)
  {
    hide Loads;
    LoadsBefore(env, before, lines, path);
    assert lines[i] == before[i];
    assert forall j :: 0 <= j < i ==> lines[j] == before[j];
    assert forall j, c: nat :: 0 <= j < i ==> (Loads(env, before, j, path, c) <==> Loads(env, lines, j, path, c));
  }

  lemma LoadedNext(env: Env, known: map<string, nat>, before: seq<MapLine>, line: MapLine, path: string, b: nat)
    ensures var lines, n := before + [line], |before|;
      && (LoadedAt(env, known, lines, path, b) <==>
            LoadedAt(env, known, before, path, b) ||
            (NeverLoaded(env, known, before, path) && Loads(env, lines, n, path, b) && (path in known || !line.oom)))
      && (NeverLoaded(env, known, lines, path) <==>
            NeverLoaded(env, known, before, path) && forall c: nat :: Loads(env, lines, n, path, c) ==> path !in known && line.oom)
  {
    hide Loads;
    var lines, n := before + [line], |before|;
    LoadsBefore(env, before, lines, path);
    forall i | 0 <= i < n ensures LoadsFirst(env, known, before, i, path, b) <==> LoadsFirst(env, known, lines, i, path, b) {
      LoadsFirstBefore(env, known, before, lines, i, path, b);
    }
    if LoadedAt(env, known, before, path, b) {
      var i :| 0 <= i < n && LoadsFirst(env, known, before, i, path, b);
      assert LoadsFirst(env, known, lines, i, path, b);
    }
    assert LoadsFirst(env, known, lines, n, path, b) <==>
      NeverLoaded(env, known, before, path) && Loads(env, lines, n, path, b) && (path in known || !line.oom);
  }

  /** The base at the first entry that counts is where the first line that counts loads the library. */
  lemma {:induction false} FirstLoaded(env: Env, known: map<string, nat>, lines: seq<MapLine>, path: string, b: nat)
    ensures FirstBase(Counted(known, Entries(env, lines)), path) == Some(b) <==> LoadedAt(env, known, lines, path, b)
    ensures FirstBase(Counted(known, Entries(env, lines)), path) == None <==> NeverLoaded(env, known, lines, path)
  {
    hide Eligible, LoadBase, Loads, PrevOf, LoadedAt, NeverLoaded;
    if lines == [] {
      assert NeverLoaded(env, known, [], path) && !LoadedAt(env, known, [], path, b) by { NothingLoaded(env, known, path, b); }
    } else {
      var n := |lines| - 1;
      var before, prev := lines[..n], PrevOf(lines[..n]);
      FirstLoaded(env, known, before, path, b);
      assert lines == before + [lines[n]];
      LoadedNext(env, known, before, lines[n], path, b);
      forall c: nat
        ensures Loads(env, lines, n, path, c) <==>
          Eligible(env, lines[n], prev) && lines[n].pathname == path && LoadBase(lines[n], prev) == Some(c)
      {
        EligibleLoads(env, lines, n, path, c);
      }
      if Eligible(env, lines[n], prev) {
        assert LoadBase(lines[n], prev).Some? by { EligibleHasBase(env, lines[n], prev); }
        var e := Entry(lines[n].pathname, LoadBase(lines[n], prev).value, lines[n].oom);
        assert (Entries(env, before) + [e])[..|Entries(env, before)|] == Entries(env, before);
        FirstBaseSnoc(Counted(known, Entries(env, before)), e, path);
      } else {
        assert Entries(env, lines) == Entries(env, before);
      }
    }
  }

  lemma EligibleHasBase(env: Env, line: MapLine, prev: Prev)
    requires Eligible(env, line, prev)
    ensures LoadBase(line, prev).Some?
  {}

  lemma NothingLoaded(env: Env, known: map<string, nat>, path: string, b: nat)
    ensures NeverLoaded(env, known, [], path) && !LoadedAt(env, known, [], path, b)
  {}

  ghost predicate IsRun(runs: seq<Run>, path: string) {
    exists i :: 0 <= i < |runs| && runs[i].path == path
  }

  /** What a refresh of the map `known` leaves, in terms of the map file's lines: each library where the
      first line that counts loads it, and one run for each that is new or has moved, in the order of those
      lines, which attempts all hooks that apply, at least one, if the library can be read, and none if not. */
  ghost predicate AsLoaded(env: Env, known: map<string, nat>, lines: seq<MapLine>, m: map<string, nat>, runs: seq<Run>) {
    && (forall path, b: nat :: path in m && m[path] == b <==> LoadedAt(env, known, lines, path, b))
    && (forall path :: IsRun(runs, path) <==> path in m && !(path in known && known[path] == m[path]))
    && (forall i, j :: 0 <= i < j < |runs| ==> runs[i].path != runs[j].path)
    && (forall r <- runs :: r.path in m && m[r.path] == r.base)
    && InLineOrder(env, known, lines, runs)
    && forall r <- runs ::
         if env.elfInit(r.base, r.path) then r.tried == Applicable(env.hooks, env.ignores, r.path) != [] else r.tried == []
  }

  lemma {:induction false} CountBoth(runs: seq<Run>, i: nat, j: nat)
    requires i < j < |runs| && runs[i].path == runs[j].path
    ensures Count(runs, runs[i].path) >= 2
    decreases |runs|
  {
    var before := runs[..|runs| - 1];
    if j < |before| { CountBoth(before, i, j); } else { CountSome(before, i); }
  }

  lemma {:induction false} CountSome(runs: seq<Run>, i: nat)
    requires i < |runs|
    ensures Count(runs, runs[i].path) >= 1
    decreases |runs|
  {
    if i < |runs| - 1 { CountSome(runs[..|runs| - 1], i); }
  }

  lemma LoadedIsSelected(env: Env, known: map<string, nat>, lines: seq<MapLine>, path: string, b: nat)
    requires LoadedAt(env, known, lines, path, b)
    ensures Applicable(env.hooks, env.ignores, path) != []
  {
    hide BeginsAt, Preselected;
    SelectedIsAttempted(env.hooks, env.ignores, path);
  }

  /** The result of a refresh, whatever allocations fail. */
  lemma RefreshLoads(env: Env, known: map<string, nat>, lines: seq<MapLine>)
    ensures var s := Fold(env, Progress(known, map[], []), Entries(env, lines));
      AsLoaded(env, known, lines, s.done, s.runs)
  {
    hide Fold, RunsFor, Counted, FirstBase, Entries, LoadedAt, RunOf, InLineOrder;
    var s := Fold(env, Progress(known, map[], []), Entries(env, lines));
    var counted := Counted(known, Entries(env, lines));
    RefreshResult(env, known, Entries(env, lines));
    RunsOrdered(env, known, lines);
    forall path, b: nat ensures path in s.done && s.done[path] == b <==> LoadedAt(env, known, lines, path, b) {
      FirstLoaded(env, known, lines, path, b);
    }
    forall path ensures IsRun(s.runs, path) <==> path in s.done && !(path in known && known[path] == s.done[path]) {
      RunsOnce(env, known, counted, path);
      if path in s.done && !(path in known && known[path] == s.done[path]) {
        RunOfIs(env, path, s.done[path]);
      }
    }
    forall i, j | 0 <= i < j < |s.runs| ensures s.runs[i].path != s.runs[j].path {
      RunsOnce(env, known, counted, s.runs[i].path);
      if s.runs[i].path == s.runs[j].path { CountBoth(s.runs, i, j); }
    }
    forall r <- s.runs
      ensures r.path in s.done && s.done[r.path] == r.base
      ensures if env.elfInit(r.base, r.path) then r.tried == Applicable(env.hooks, env.ignores, r.path) != [] else r.tried == []
    {
      RunsOnce(env, known, counted, r.path);
      RunOfIs(env, r.path, s.done[r.path]);
      LoadedIsSelected(env, known, lines, r.path, s.done[r.path]);
    }
  }

  lemma RunOfIs(env: Env, path: string, base: nat)
    ensures var r := RunOf(env, path, base);
      r.path == path && r.base == base && r.tried == if env.elfInit(base, path) then Applicable(env.hooks, env.ignores, path) else []
  {}

  /** The runs come in the order of the lines that load their libraries. */
  ghost predicate InLineOrder(env: Env, known: map<string, nat>, lines: seq<MapLine>, runs: seq<Run>) {
    forall i, j, a, b :: 0 <= i < j < |runs| && Causes(env, known, lines, a, runs[i]) && Causes(env, known, lines, b, runs[j]) ==> a < b
  }

  /** Line a is the one that the run is for. */
  ghost predicate Causes(env: Env, known: map<string, nat>, lines: seq<MapLine>, a: int, r: Run) {
    0 <= a < |lines| && LoadsFirst(env, known, lines, a, r.path, r.base)
  }

  /** Only the first line that counts loads a library first. */
  lemma LoadsFirstOnce(env: Env, known: map<string, nat>, lines: seq<MapLine>, path: string, a: nat, b: nat, c: nat, d: nat)
    requires a < |lines| && b < |lines| && LoadsFirst(env, known, lines, a, path, c) && LoadsFirst(env, known, lines, b, path, d)
    ensures a == b
  {
    hide Loads;
  }

  /** A run is for a library that the lines load, and one more line brings one more run at most, at the end. */
  lemma {:induction false} RunsOrdered(env: Env, known: map<string, nat>, lines: seq<MapLine>)
    ensures InLineOrder(env, known, lines, RunsFor(env, known, Counted(known, Entries(env, lines))))
    ensures forall r <- RunsFor(env, known, Counted(known, Entries(env, lines))) :: LoadedAt(env, known, lines, r.path, r.base)
  {
    hide Eligible, LoadBase, PrevOf, RunOf, LoadedAt, InLineOrder, RunsFor, Entries, Counted;
    if lines == [] {
      NoRunsYet(env, known);
      assert InLineOrder(env, known, [], []) by { NothingOrdered(env, known); }
    } else {
      var n := |lines| - 1;
      var before := lines[..n];
      RunsOrdered(env, known, before);
      var es, es' := Counted(known, Entries(env, before)), Counted(known, Entries(env, lines));
      OneRunMore(env, known, before, lines);
      var runs := RunsFor(env, known, es);
      OldRuns(env, known, before, lines, runs);
      if e: Entry :| es' == es + [e] && RunsFor(env, known, es') == runs + [RunOf(env, e.path, e.base)] && FirstBase(es, e.path) == None {
        RunOfIs(env, e.path, e.base);
        FirstBaseSnoc(es, e, e.path);
        FirstLoaded(env, known, lines, e.path, e.base);
        FirstLoaded(env, known, before, e.path, e.base);
        NewRun(env, known, before, lines, runs, RunOf(env, e.path, e.base));
        assert LoadedAt(env, known, lines, e.path, e.base);
      }
    }
  }

  lemma NoRunsYet(env: Env, known: map<string, nat>)
    ensures RunsFor(env, known, Counted(known, Entries(env, []))) == []
  {}

  lemma NothingOrdered(env: Env, known: map<string, nat>)
    ensures InLineOrder(env, known, [], [])
  {}

  lemma OneRunMore(env: Env, known: map<string, nat>, before: seq<MapLine>, lines: seq<MapLine>)
    requires lines != [] && before == lines[..|lines| - 1]
    ensures var es, es' := Counted(known, Entries(env, before)), Counted(known, Entries(env, lines));
      || RunsFor(env, known, es') == RunsFor(env, known, es)
      || exists e: Entry :: es' == es + [e] && FirstBase(es, e.path) == None
           && RunsFor(env, known, es') == RunsFor(env, known, es) + [RunOf(env, e.path, e.base)]
  {
    hide Eligible, LoadBase, PrevOf, RunOf;
    var all, line, prev := Entries(env, before), lines[|lines| - 1], PrevOf(before);
    if Eligible(env, line, prev) {
      EligibleHasBase(env, line, prev);
      var e := Entry(line.pathname, LoadBase(line, prev).value, line.oom);
      assert (all + [e])[..|all|] == all;
      var es := Counted(known, all);
      assert (es + [e])[..|es|] == es;
    } else {
      assert Entries(env, lines) == all;
    }
  }

  lemma OldRuns(env: Env, known: map<string, nat>, before: seq<MapLine>, lines: seq<MapLine>, runs: seq<Run>)
    requires before <= lines && InLineOrder(env, known, before, runs)
    requires forall r <- runs :: LoadedAt(env, known, before, r.path, r.base)
    ensures InLineOrder(env, known, lines, runs)
    ensures forall r <- runs :: LoadedAt(env, known, lines, r.path, r.base)
    ensures forall r <- runs, a :: Causes(env, known, lines, a, r) ==> a < |before|
  {
    hide LoadsFirst;
    forall r <- runs
      ensures LoadedAt(env, known, lines, r.path, r.base)
      ensures forall a :: Causes(env, known, lines, a, r) ==> a < |before| && Causes(env, known, before, a, r)
    {
      var i :| 0 <= i < |before| && LoadsFirst(env, known, before, i, r.path, r.base);
      LoadsFirstBefore(env, known, before, lines, i, r.path, r.base);
      forall a | Causes(env, known, lines, a, r) ensures a == i {
        LoadsFirstOnce(env, known, lines, r.path, a, i, r.base, r.base);
      }
    }
  }

  lemma NewRun(env: Env, known: map<string, nat>, before: seq<MapLine>, lines: seq<MapLine>, runs: seq<Run>, r: Run)
    requires before <= lines && |lines| == |before| + 1 && InLineOrder(env, known, lines, runs)
    requires forall r <- runs, a :: Causes(env, known, lines, a, r) ==> a < |before|
    requires NeverLoaded(env, known, before, r.path)
    ensures InLineOrder(env, known, lines, runs + [r])
  {
    hide Loads;
    forall b | Causes(env, known, lines, b, r) ensures b == |before| {
      if b < |before| {
        LoadsFirstBefore(env, known, before, lines, b, r.path, r.base);
      }
    }
    assert forall i :: 0 <= i < |runs| ==> runs[i] in runs;
  }

  /** A readable part that is not executable, then the executable part of the same file: the library is at
      the base of the first. */
  lemma SplitMapping(env: Env, path: string)
    requires Preselected(env.hooks, env.ignores, path) && path != "" && path[0] != '[' && env.isElf(0x1000)
    ensures var lines := [MapLine(0x1000, Perm(true, false, false, true), 0, path, false),
                          MapLine(0x2000, Perm(true, false, true, true), 0x1000, path, false)];
      LoadedAt(env, map[], lines, path, 0x1000)
  {
    hide Preselected;
    var lines := [MapLine(0x1000, Perm(true, false, false, true), 0, path, false),
                  MapLine(0x2000, Perm(true, false, true, true), 0x1000, path, false)];
    assert BeginsAt(lines, 0, 1, path, 0x1000);
    assert LoadsFirst(env, map[], lines, 1, path, 0x1000);
  }
}
