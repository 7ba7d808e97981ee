/** The refresh engine of xh_core.c over the red-black library map. */
module XhCore {
  import Bits
  import opened Strcmp
  import opened RbHeap
  import opened RbBalance
  import opened RbInsert
  import opened RbRemove
  import opened RbScan
  import opened Wrappers
  import opened XhRules
  import opened XhMaps
  import Tailq
  import opened XhQueue

  // ---- a library map as a map from path to base address ----

  ghost function Infos(s: seq<Node>): set<MapInfo> {
    set n | n in s :: n.elem
  }

  ghost function InfosOf(live: set<Node>): set<MapInfo> {
    set n | n in live :: n.elem
  }

  /** The nodes of s carry exactly the entries of m. */
  ghost predicate Holds(s: seq<Node>, m: map<string, nat>)
    reads Infos(s)
  {
    && (forall n :: n in s ==> Key(n) in m && m[Key(n)] == n.elem.baseAddr)
    && (forall p :: p in m ==> exists n :: n in s && Key(n) == p)
  }

  lemma HoldsMinus(s: seq<Node>, w: seq<Node>, n: Node, m: map<string, nat>)
    requires Holds(s, m) && Sorted(s) && n in s && forall k :: k in w <==> k in s && k != n
    ensures Holds(w, m - {Key(n)})
  {
    SortedKeys(s);
    hide Sorted;
  }

  lemma SortedKeys(s: seq<Node>)
    requires Sorted(s)
    ensures forall a, b :: a in s && b in s && Key(a) == Key(b) ==> a == b
  {
    forall a, b | a in s && b in s && Key(a) == Key(b) ensures a == b {
      var i :| 0 <= i < |s| && s[i] == a;
      var j :| 0 <= j < |s| && s[j] == b;
      CmpZero(Key(a), Key(b));
    }
  }

  lemma HoldsPlus(s: seq<Node>, w: seq<Node>, n: Node, m: map<string, nat>)
    requires Holds(s, m) && Key(n) !in m && forall k :: k in w <==> k in s || k == n
    ensures Holds(w, m[Key(n) := n.elem.baseAddr])
  {
    assert n in w;
  }

  /** The state between two lines: the old and the new map, apart, with no other live node. */
  ghost predicate Between(o: Head, n: Head, live: set<Node>, s: Progress)
    reads o, n, Elems(Contents(o)), Elems(Contents(n))
    reads Infos(Contents(o)), Infos(Contents(n))
  {
    && o != n && Valid(o) && Valid(n)
    && Holds(Contents(o), s.left) && Holds(Contents(n), s.done)
    && s.left.Keys !! s.done.Keys
    && live == Elems(Contents(o)) + Elems(Contents(n))
  }

  /** xh_core_hook: initialises the ELF reader and, if that works, attempts the applicable hooks. */
  method Hook(env: Env, mi: Node) returns (run: Run)
    ensures run == RunOf(env, Key(mi), mi.elem.baseAddr)
  {
    var tried := [];
    if env.elfInit(mi.elem.baseAddr, mi.elem.pathname) {
      tried := Attempts(env.hooks, env.ignores, mi.elem.pathname);
    }
    run := Run(mi.elem.pathname, mi.elem.baseAddr, tried);
  }

  /** The live nodes after free(mi): only a live node may be freed. */
  ghost function Free(live: set<Node>, mi: Node): set<Node>
    requires mi in live
  {
    live - {mi}
  }

  /** mi->base_addr = base, seen in both maps. */
  method SetBase(mi: Node, base: nat, ghost sn: seq<Node>, ghost m: map<string, nat>, ghost so: seq<Node>, ghost mo: map<string, nat>)
    requires Holds(sn, m) && Sorted(sn) && mi in sn && Holds(so, mo) && Key(mi) !in mo
    modifies mi.elem
    ensures Holds(sn, m[Key(mi) := base]) && Holds(so, mo) && mi.elem.baseAddr == base
  {
    SortedKeys(sn);
    assert allocated(Elems(sn)) && allocated(Elems(so));
    mi.elem.baseAddr := base;
    forall n | n in sn ensures Key(n) in m[Key(mi) := base] && m[Key(mi) := base][Key(n)] == n.elem.baseAddr {
      assert n.elem == mi.elem ==> Key(n) == Key(mi);
    }
  }

  lemma BetweenParts(o: Head, n: Head, live: set<Node>, s: Progress)
    requires Between(o, n, live, s)
    ensures Sorted(Contents(o)) && Sorted(Contents(n)) && Elems(Contents(o)) !! Elems(Contents(n))
    ensures Elems(Contents(o)) <= live && Elems(Contents(n)) <= live
    ensures o != n && Valid(o) && Valid(n) && Holds(Contents(o), s.left) && Holds(Contents(n), s.done) && s.left.Keys !! s.done.Keys
    ensures forall k :: k in Contents(o) ==> Key(k) in s.left
    ensures forall k :: k in Contents(n) ==> Key(k) in s.done
    ensures live == Elems(Contents(o)) + Elems(Contents(n))
  {}

  lemma BetweenJoin(o: Head, n: Head, live: set<Node>, s: Progress)
    requires o != n && Valid(o) && Valid(n)
    requires Holds(Contents(o), s.left) && Holds(Contents(n), s.done) && s.left.Keys !! s.done.Keys
    requires live == Elems(Contents(o)) + Elems(Contents(n))
    ensures Between(o, n, live, s)
  {}

  /** Moves a node from the old map to the new one, which cannot hold its path: the branch
      for a repeated entry is dead. */
  method Move(mi: Node, o: Head, n: Head, ghost live: set<Node>, ghost s: Progress)
    requires Between(o, n, live, s) && mi in Contents(o)
    modifies o, n, live
    ensures Between(o, n, live, s.(left := s.left - {Key(mi)}, done := s.done[Key(mi) := mi.elem.baseAddr]))
    ensures mi in Contents(n)
  {
    hide Valid, Inserted, Without, Sorted, InOrder, RunOf, Holds, Lt, Between;
    BetweenParts(o, n, live, s);
    ghost var co, cn := Contents(o), Contents(n);
    assert allocated(Elems(co)) && allocated(Elems(cn)) && allocated(Infos(co)) && allocated(Infos(cn));
    var gone := Remove(o, mi);
    HoldsMinus(co, Contents(o), mi, s.left);
    assert allocated(Elems(Contents(o))) && allocated(Infos(Contents(o)));
    var dup := Insert(n, gone);
    if dup != null {
      assert false;
    }
    HoldsPlus(cn, Contents(n), gone, s.done);
    SameElems(Elems(co), Elems(Contents(o)), Elems(cn), Elems(Contents(n)), mi);
    BetweenJoin(o, n, live, s.(left := s.left - {Key(mi)}, done := s.done[Key(mi) := mi.elem.baseAddr]));
  }

  lemma SameElems(a: set<Node>, a': set<Node>, b: set<Node>, b': set<Node>, n: Node)
    requires n in a && (forall k :: k in a' <==> k in a && k != n) && (forall k :: k in b' <==> k in b || k == n)
    ensures a + b == a' + b'
  {}

  lemma MoreElems(a: set<Node>, b: set<Node>, b': set<Node>, n: Node)
    requires forall k :: k in b' <==> k in b || k == n
    ensures a + b + {n} == a + b'
  {}

  /** A library the old map knows: it moves to the new map and is hooked if its base changed. */
  method Update(env: Env, base: nat, mi: Node, o: Head, n: Head, ghost live: set<Node>, ghost s: Progress) returns (runs: seq<Run>)
    requires Between(o, n, live, s) && mi in Contents(o)
    modifies o, n, live, mi.elem
    ensures Between(o, n, live, Step(env, s, Entry(Key(mi), base, false)))
    ensures s.runs + runs == Step(env, s, Entry(Key(mi), base, false)).runs
  {
    hide Valid, Sorted, InOrder, RunOf, Holds, Between;
    BetweenParts(o, n, live, s);
    HoldsAt(Contents(o), s.left, mi);
    ghost var s1 := s.(left := s.left - {Key(mi)}, done := s.done[Key(mi) := mi.elem.baseAddr]);
    Move(mi, o, n, live, s);
    BetweenParts(o, n, live, s1);
    runs := [];
    if mi.elem.baseAddr != base {
      assert allocated(Elems(Contents(o))) && allocated(Elems(Contents(n)));
      SetBase(mi, base, Contents(n), s1.done, Contents(o), s1.left);
      assert s1.done[Key(mi) := base] == s.done[Key(mi) := base];
      assert allocated(Elems(Contents(o))) && allocated(Elems(Contents(n))) && allocated(Infos(Contents(o))) && allocated(Infos(Contents(n)));
      var run := Hook(env, mi);
      runs := [run];
    }
    BetweenJoin(o, n, live, Step(env, s, Entry(Key(mi), base, false)));
  }

  lemma HoldsAt(s: seq<Node>, m: map<string, nat>, n: Node)
    requires Holds(s, m) && n in s
    ensures Key(n) in m && m[Key(n)] == n.elem.baseAddr
  {}

  /** Puts a new node into the new map, unless its path is there already. */
  method Adopt(mi: Node, o: Head, n: Head, ghost live: set<Node>, ghost s: Progress) returns (dup: Node?)
    requires Between(o, n, live, s) && mi !in live && Key(mi) !in s.left
    modifies n, Elems(Contents(n)), mi
    ensures dup == null <==> Key(mi) !in s.done
    ensures dup == null ==> Between(o, n, live + {mi}, s.(done := s.done[Key(mi) := mi.elem.baseAddr])) && mi in Contents(n)
    ensures dup != null ==> Between(o, n, live, s)
  {
    hide Valid, Inserted, Sorted, InOrder, Holds, Lt, Between;
    BetweenParts(o, n, live, s);
    ghost var co, cn := Contents(o), Contents(n);
    assert allocated(Elems(co)) && allocated(Elems(cn)) && allocated(Infos(co)) && allocated(Infos(cn));
    dup := Insert(n, mi);
    if dup != null {
      HoldsAt(cn, s.done, dup);
      BetweenJoin(o, n, live, s);
    } else {
      HoldsNot(cn, s.done, Key(mi));
      HoldsPlus(cn, Contents(n), mi, s.done);
      MoreElems(Elems(co), Elems(cn), Elems(Contents(n)), mi);
      BetweenJoin(o, n, live + {mi}, s.(done := s.done[Key(mi) := mi.elem.baseAddr]));
    }
  }

  /** A library the old map does not know: a new node, kept only if its path is new. */
  method Create(env: Env, path: string, base: nat, o: Head, n: Head, ghost live: set<Node>, ghost s: Progress)
    returns (runs: seq<Run>, ghost live': set<Node>)
    requires Between(o, n, live, s) && path !in s.left
    modifies n, Elems(Contents(n))
    ensures Between(o, n, live', Step(env, s, Entry(path, base, false))) && fresh(live' - live) && fresh(InfosOf(live') - InfosOf(live))
    ensures s.runs + runs == Step(env, s, Entry(path, base, false)).runs
  {
    hide Between, RunOf, InOrder, Valid, Holds;
    BetweenParts(o, n, live, s);
    assert allocated(Elems(Contents(o))) && allocated(Elems(Contents(n))) && allocated(Infos(Contents(o))) && allocated(Infos(Contents(n)));
    var info := new MapInfo(path, base);
    var mi := new Node(info);
    live' := live + {mi};
    var dup := Adopt(mi, o, n, live, s);
    runs := [];
    if dup != null {
      live' := Free(live', mi);
      assert live' == live;
      SameMaps(o, n, live', s, Step(env, s, Entry(path, base, false)));
    } else {
      SameMaps(o, n, live', s.(done := s.done[path := base]), Step(env, s, Entry(path, base, false)));
      var run := HookBetween(env, mi, o, n, live', Step(env, s, Entry(path, base, false)));
      runs := [run];
    }
  }

  method HookBetween(env: Env, mi: Node, ghost o: Head, ghost n: Head, ghost live: set<Node>, ghost s: Progress) returns (run: Run)
    requires Between(o, n, live, s)
    ensures Between(o, n, live, s) && run == RunOf(env, Key(mi), mi.elem.baseAddr)
  {
    hide RunOf, InOrder, Valid, Holds;
    assert allocated(Elems(Contents(o))) && allocated(Elems(Contents(n))) && allocated(Infos(Contents(o))) && allocated(Infos(Contents(n)));
    run := Hook(env, mi);
  }

  lemma SameMaps(o: Head, n: Head, live: set<Node>, s: Progress, s': Progress)
    requires Between(o, n, live, s) && s'.left == s.left && s'.done == s.done
    ensures Between(o, n, live, s')
  {}

  lemma HoldsNot(s: seq<Node>, m: map<string, nat>, p: string)
    requires Holds(s, m) && forall n :: n in s ==> Key(n) != p
    ensures p !in m
  {}

  /** One library found in the map: the block from the RB_FIND on. */
  method Consider(env: Env, path: string, base: nat, oom: bool, o: Head, n: Head, ghost live: set<Node>, ghost s: Progress)
    returns (runs: seq<Run>, ghost live': set<Node>)
    requires Between(o, n, live, s)
    modifies o, n, live, InfosOf(live)
    ensures Between(o, n, live', Step(env, s, Entry(path, base, oom))) && fresh(live' - live) && fresh(InfosOf(live') - InfosOf(live))
    ensures s.runs + runs == Step(env, s, Entry(path, base, oom)).runs
  {
    hide Between, RunOf, InOrder, Valid, Holds, Sorted, Bits.Pow2;
    BetweenParts(o, n, live, s);
    assert allocated(Elems(Contents(o))) && allocated(Elems(Contents(n))) && allocated(Infos(Contents(o))) && allocated(Infos(Contents(n)));
    ghost var steps;
    var mi: Node?;
    mi, steps := Find(o, path);
    if mi != null {
      HoldsAt(Contents(o), s.left, mi);
      live' := live;
      runs := Update(env, base, mi, o, n, live, s);
    } else {
      HoldsNot(Contents(o), s.left, path);
      if oom {
        runs, live' := [], live;
      } else {
        runs, live' := Create(env, path, base, o, n, live, s);
      }
    }
  }

  // ---- the loop over the lines ----

  /** The tests of the loop body up to the ELF header check, with the prev_* variables. */
  method Classify(env: Env, line: MapLine, prev: Prev) returns (found: bool, base: nat, prev': Prev)
    ensures found <==> Eligible(env, line, prev)
    ensures found ==> LoadBase(line, prev) == Some(base)
    ensures prev' == if Records(line) then Prev(line.base, line.perm.r, line.offset, line.pathname) else prev
    ensures prev' == if NotRecorded(line) then prev else Prev(line.base, line.perm.r, line.offset, line.pathname)
    ensures found ==>
      && env.isElf(base)
      && (line.offset == 0 ==> base == line.base)
      && (line.offset != 0 ==> base == prev.base && prev.offset == 0 && prev.read && prev.pathname == line.pathname)
  {
    found, base, prev' := false, line.base, prev;
    if !line.perm.priv { return; }
    if !line.perm.r && !line.perm.w && !line.perm.x { return; }
    if line.pathname == "" { return; }
    if line.pathname[0] == '[' { return; }
    if !line.perm.x {
      prev' := Prev(line.base, line.perm.r, line.offset, line.pathname);
      return;
    }
    if line.offset != 0 {
      if prev.pathname != line.pathname || prev.offset != 0 || !prev.read { return; }
      base := prev.base;
    }
    found := Preselect(env.hooks, env.ignores, line.pathname);
    if !found { return; }
    found := env.isElf(base);
  }

  method ClassifyBetween(env: Env, line: MapLine, prev: Prev, ghost o: Head, ghost n: Head, ghost live: set<Node>, ghost s: Progress)
    returns (found: bool, base: nat, prev': Prev)
    requires Between(o, n, live, s)
    ensures Between(o, n, live, s)
    ensures found <==> Eligible(env, line, prev)
    ensures found ==> LoadBase(line, prev) == Some(base)
    ensures prev' == if Records(line) then Prev(line.base, line.perm.r, line.offset, line.pathname) else prev
  {
    hide InOrder, Valid, Holds, Eligible, LoadBase, Records;
    assert allocated(Elems(Contents(o))) && allocated(Elems(Contents(n))) && allocated(Infos(Contents(o))) && allocated(Infos(Contents(n)));
    found, base, prev' := Classify(env, line, prev);
  }

  /** The while loop of xh_core_refresh_impl. */
  method Scan(env: Env, lines: seq<MapLine>, o: Head, n: Head, ghost live0: set<Node>, ghost s0: Progress)
    returns (runs: seq<Run>, ghost live: set<Node>)
    requires Between(o, n, live0, s0) && s0.runs == []
    modifies o, n, live0, InfosOf(live0)
    ensures Between(o, n, live, Fold(env, s0, Entries(env, lines)))
    ensures fresh(live - live0) && fresh(InfosOf(live) - InfosOf(live0))
    ensures runs == Fold(env, s0, Entries(env, lines)).runs
  {
    hide Between, Fold, Entries, PrevOf, Step, Eligible, LoadBase, Records;
    var prev := PREV0;
    runs, live := [], live0;
    ghost var s := s0;
    ScanStart(env, s0, lines);
    for i := 0 to |lines|
      invariant prev == PrevOf(lines[..i]) && s == Fold(env, s0, Entries(env, lines[..i]))
      invariant Between(o, n, live, s) && runs == s.runs && fresh(live - live0) && fresh(InfosOf(live) - InfosOf(live0))
    {
      FoldNext(env, s0, lines, i);
      var found: bool, base: nat;
      var was := prev;
      found, base, prev := ClassifyBetween(env, lines[i], was, o, n, live, s);
      if found {
        var more;
        more, live := Consider(env, lines[i].pathname, base, lines[i].oom, o, n, live, s);
        runs := runs + more;
        s := Step(env, s, Entry(lines[i].pathname, base, lines[i].oom));
      }
    }
    assert lines[..|lines|] == lines;
  }

  lemma ScanStart(env: Env, s0: Progress, lines: seq<MapLine>)
    ensures PrevOf(lines[..0]) == PREV0 && Fold(env, s0, Entries(env, lines[..0])) == s0
  {}

  // ---- RB_FOREACH_SAFE with removal ----

  lemma DropFirst(s: seq<Node>)
    requires s != [] && Sorted(s)
    ensures Without(s, s[0]) == s[1..] && Follow(s, s[0]) == First(s[1..])
    ensures s[0] !in s[1..]
  {
    SortedNoDup(s);
  }

  lemma SortedTail(s: seq<Node>, k: nat)
    requires Sorted(s) && k <= |s|
    ensures Sorted(s[k..])
  {
    assert s == s[..k] + s[k..];
    SortedParts(s[..k], s[k..]);
  }

  /** What is left after the first k nodes of a map, and after one more. */
  lemma SweepStep(s: seq<Node>, k: nat)
    requires Sorted(s) && k <= |s|
    ensures First(s[k..]) == null <==> k == |s|
    ensures k == |s| ==> s[..k] == s && s[k..] == []
    ensures k < |s| ==>
      && First(s[k..]) == s[k] && Follow(s[k..], s[k]) == First(s[k + 1..]) && Without(s[k..], s[k]) == s[k + 1..]
      && s[..k + 1] == s[..k] + [s[k]] && s[k] in s[k..] && s[k] !in s[k + 1..] && Elems(s[k + 1..]) == Elems(s[k..]) - {s[k]}
      && Elems(s[..k + 1]) == Elems(s[..k]) + {s[k]}
  {
    hide Sorted, First, Follow, Without;
    FirstNull(s[k..]);
    if k < |s| {
      SortedTail(s, k);
      DropFirst(s[k..]);
      assert s[k..][0] == s[k] && s[k..][1..] == s[k + 1..];
      assert s[k..] == [s[k]] + s[k + 1..];
      assert s[..k + 1] == s[..k] + [s[k]];
    }
  }

  /** Frees a whole map in key order; every node is visited, removed and freed exactly once. */
  method Sweep(o: Head, ghost live0: set<Node>) returns (ghost visited: seq<Node>, ghost live: set<Node>)
    requires Valid(o) && Elems(Contents(o)) <= live0
    modifies o, Elems(Contents(o))
    ensures Valid(o) && Contents(o) == [] && o.root == null
    ensures visited == old(Contents(o)) && live == live0 - Elems(visited)
  {
    hide Valid, Sorted, InOrder, Follow, Without, First;
    RemoveStart(o);
    ghost var s := Contents(o);
    ghost var k := 0;
    visited, live := [], live0;
    assert allocated(Elems(s));
    var mi := MinMax(o, -1);
    assert s[0..] == s && s[..0] == [];
    while mi != null
      invariant 0 <= k <= |s| && Valid(o) && Contents(o) == s[k..] && mi == First(s[k..])
      invariant visited == s[..k] && live == live0 - Elems(s[..k]) && Elems(s[k..]) <= live
      decreases |s| - k
    {
      SweepStep(s, k);
      var miTmp := Next(o, mi);
      var gone := Remove(o, mi);
      visited := visited + [mi];
      live := Free(live, mi);
      mi := miTmp;
      k := k + 1;
    }
    SweepStep(s, k);
    EmptyRoot(o);
  }

  lemma EmptyRoot(o: Head)
    requires Valid(o) && Contents(o) == []
    ensures o.root == null
  {
    assert o.tree.Leaf?;
  }

  /** Builds the refreshed map from the old one and frees what is left of the old one. */
  method Rebuild(env: Env, lines: seq<MapLine>, o: Head, ghost live0: set<Node>, ghost known: map<string, nat>)
    returns (refreshed: Head, runs: seq<Run>, ghost live: set<Node>)
    requires Valid(o) && live0 == Elems(Contents(o)) && Holds(Contents(o), known)
    modifies o, live0, InfosOf(live0)
    ensures fresh(refreshed) && Valid(refreshed) && live == Elems(Contents(refreshed)) && fresh(live - live0)
    ensures Holds(Contents(refreshed), Fold(env, Progress(known, map[], []), Entries(env, lines)).done)
    ensures runs == Fold(env, Progress(known, map[], []), Entries(env, lines)).runs
    ensures AsLoaded(env, known, lines, Fold(env, Progress(known, map[], []), Entries(env, lines)).done, runs)
    ensures Valid(o) && Contents(o) == []
  {
    hide Fold, Entries, Valid, Holds, Between, InOrder, Sorted, AsLoaded;
    RefreshLoads(env, known, lines);
    assert allocated(Elems(Contents(o))) && allocated(Infos(Contents(o)));
    refreshed := new Head();
    EmptyIsValid(refreshed);
    ghost var start := Progress(known, map[], []);
    BetweenJoin(o, refreshed, live0, start);
    ghost var now, gone;
    runs, now := Scan(env, lines, o, refreshed, live0, start);
    BetweenParts(o, refreshed, now, Fold(env, start, Entries(env, lines)));
    assert allocated(Elems(Contents(refreshed))) && allocated(Infos(Contents(refreshed)));
    gone, live := Sweep(o, now);
  }

  datatype Errno = Ok | Inval | NoMem

  /** The file-scope state of xh_core.c that a refresh works on. */
  class Core {
    const isElf: nat -> bool
    const elfInit: (nat, string) -> bool
    const hookInfo: RuleQueue<HookInfo>
    const ignoreInfo: RuleQueue<IgnoreInfo>
    var mapInfo: Head
    var inited: bool
    ghost var live: set<Node>

    /** The queues are linked as they should be and share no cell. */
    ghost predicate Queues()
      reads hookInfo, hookInfo.Repr(), ignoreInfo, ignoreInfo.Repr()
    {
      hookInfo.Valid() && ignoreInfo.Valid() && hookInfo.Repr() !! ignoreInfo.Repr()
    }

    ghost function Environment(): Env
      reads hookInfo, hookInfo.Repr(), ignoreInfo, ignoreInfo.Repr()
      requires Queues()
    {
      Env(hookInfo.Contents(), ignoreInfo.Contents(), isElf, elfInit)
    }

    /** The hooks attempted for a library. */
    ghost function Attempted(path: string): seq<HookInfo>
      reads hookInfo, hookInfo.Repr(), ignoreInfo, ignoreInfo.Repr()
      requires Queues()
    {
      Applicable(hookInfo.Contents(), ignoreInfo.Contents(), path)
    }

    /** The map is a red-black tree holding every live node and nothing else. */
    ghost predicate MapOk()
      reads `mapInfo, `live, mapInfo, Elems(Contents(mapInfo))
    {
      Valid(mapInfo) && live == Elems(Contents(mapInfo))
    }

    ghost predicate Invariant()
      reads this, mapInfo, Elems(Contents(mapInfo)), hookInfo, hookInfo.Repr(), ignoreInfo, ignoreInfo.Repr()
    {
      MapOk() && Queues()
    }

    /** The map as path -> base address. */
    ghost predicate Knows(m: map<string, nat>)
      reads `mapInfo, mapInfo, Infos(Contents(mapInfo))
    {
      Holds(Contents(mapInfo), m)
    }

    constructor (isElf: nat -> bool, elfInit: (nat, string) -> bool)
      ensures Invariant() && Knows(map[]) && hookInfo.Contents() == [] && ignoreInfo.Contents() == [] && !inited
    {
      this.isElf, this.elfInit := isElf, elfInit;
      hookInfo := new RuleQueue<HookInfo>();
      ignoreInfo := new RuleQueue<IgnoreInfo>();
      inited, live := false, {};
      var h := new Head();
      mapInfo := h;
      new;
      EmptyIsValid(mapInfo);
    }

    /** xh_core_register; refused once a refresh has begun. An argument that is NULL or a pattern that
        regcomp refuses is not valid. */
    method Register(hi: HookInfo, valid: bool, oom: bool) returns (r: Errno)
      requires Queues()
      modifies hookInfo, hookInfo.Repr()
      ensures Queues() && ignoreInfo.Contents() == old(ignoreInfo.Contents())
      ensures r == if !valid || inited then Inval else if oom then NoMem else Ok
      ensures hookInfo.Contents() == if r == Ok then old(hookInfo.Contents()) + [hi] else old(hookInfo.Contents())
      ensures forall path :: Attempted(path) ==
                old(Attempted(path)) + if r == Ok && hi.matches(path) && !Ignored(ignoreInfo.Contents(), path, hi.symbol) then [hi] else []
    {
      if !valid || inited { return Inval; }
      if oom { return NoMem; }
      ghost var hooks, ignores := hookInfo.Contents(), ignoreInfo.Contents();
      hookInfo.Add(hi);
      forall path { RegisteredLast(hooks, hi, ignores, path); }
      return Ok;
    }

    /** xh_core_ignore. */
    method Ignore(ii: IgnoreInfo, valid: bool, oom: bool) returns (r: Errno)
      requires Queues()
      modifies ignoreInfo, ignoreInfo.Repr()
      ensures Queues() && hookInfo.Contents() == old(hookInfo.Contents())
      ensures r == if !valid || inited then Inval else if oom then NoMem else Ok
      ensures ignoreInfo.Contents() == if r == Ok then old(ignoreInfo.Contents()) + [ii] else old(ignoreInfo.Contents())
      ensures forall path :: Attempted(path) == if r == Ok then Uncovered(old(Attempted(path)), ii, path) else old(Attempted(path))
    {
      if !valid || inited { return Inval; }
      if oom { return NoMem; }
      ghost var hooks, ignores := hookInfo.Contents(), ignoreInfo.Contents();
      ignoreInfo.Add(ii);
      forall path { IgnoredMore(hooks, ignores, ii, path); }
      return Ok;
    }

    /** One synchronous refresh, from the map `known`, over the given memory map. */
    method Refresh(lines: seq<MapLine>, ghost known: map<string, nat>) returns (runs: seq<Run>)
      requires Invariant() && Knows(known)
      modifies this, mapInfo, live, InfosOf(live)
      ensures Invariant() && fresh(live - old(live)) && inited
      ensures Environment() == old(Environment())
      ensures var s := Fold(Environment(), Progress(known, map[], []), Entries(Environment(), lines));
        Knows(s.done) && runs == s.runs && AsLoaded(Environment(), known, lines, s.done, runs)
    {
      hide AsLoaded, Fold, Entries, MapOk, Knows, Queues, Environment, InOrder;
      assert allocated(hookInfo.Repr()) && allocated(ignoreInfo.Repr());
      assert allocated(Elems(Contents(mapInfo))) && allocated(Infos(Contents(mapInfo)));
      var env := Rules();
      inited := true;
      runs := RefreshMap(env, lines, known);
    }

    /** The map's part of a refresh. */
    method RefreshMap(env: Env, lines: seq<MapLine>, ghost known: map<string, nat>) returns (runs: seq<Run>)
      requires MapOk() && Knows(known)
      modifies `mapInfo, `live, mapInfo, live, InfosOf(live)
      ensures MapOk() && fresh(live - old(live))
      ensures var s := Fold(env, Progress(known, map[], []), Entries(env, lines));
        Knows(s.done) && runs == s.runs && AsLoaded(env, known, lines, s.done, runs)
    {
      hide AsLoaded, Fold, Entries, Valid, Holds, InOrder;
      assert allocated(Elems(Contents(mapInfo))) && allocated(Infos(Contents(mapInfo)));
      var refreshed;
      refreshed, runs, live := Rebuild(env, lines, mapInfo, live, known);
      assert allocated(Elems(Contents(refreshed))) && allocated(Infos(Contents(refreshed)));
      mapInfo := refreshed;
    }

    /** The rules, read off their queues. */
    method Rules() returns (env: Env)
      requires Queues()
      ensures env == Environment()
    {
      var hooks := hookInfo.List();
      var ignores := ignoreInfo.List();
      env := Env(hooks, ignores, isElf, elfInit);
    }

    /** xh_core_clear after the worker has been joined: every node, hook and rule goes. */
    method Clear()
      requires Invariant()
      modifies this, mapInfo, live, hookInfo, hookInfo.Repr(), ignoreInfo, ignoreInfo.Repr()
      ensures Invariant() && live == {} && Contents(mapInfo) == [] && mapInfo == old(mapInfo)
      ensures hookInfo.Contents() == [] && ignoreInfo.Contents() == [] && !inited
    {
      hide MapOk, InOrder, Queues;
      assert allocated(hookInfo.Repr()) && allocated(ignoreInfo.Repr());
      ClearMap();
      inited := false;
      assert Elems([]) == {};
      assert Elems(Contents(mapInfo)) == {};
      ClearRules();
      assert MapOk();
    }

    method ClearRules()
      requires Queues()
      modifies hookInfo, hookInfo.Repr(), ignoreInfo, ignoreInfo.Repr()
      ensures Queues() && hookInfo.Contents() == [] && ignoreInfo.Contents() == []
    {
      hide Tailq.Queue;
      hookInfo.Clear();
      ignoreInfo.Clear();
    }

    method ClearMap()
      requires MapOk()
      modifies `live, mapInfo, live
      ensures MapOk() && live == {} && Contents(mapInfo) == [] && mapInfo == old(mapInfo)
    {
      hide Valid, InOrder;
      ghost var gone;
      gone, live := Sweep(mapInfo, live);
      assert Elems([]) == {};
    }
  }

  lemma EmptyIsValid(h: Head)
    requires h.root == null && h.tree == Leaf
    ensures Valid(h) && Contents(h) == [] && Holds(Contents(h), map[])
  {}
}
