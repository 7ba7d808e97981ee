/** Which hooks a library gets: the registered rules of xh_core.c. */
module XhRules {
  import opened Wrappers

  /** A registered hook; `matches` is what regexec decides for its compiled pattern. */
  datatype HookInfo = HookInfo(matches: string -> bool, symbol: string, newFunc: nat)

  /** An ignore rule; no symbol means every symbol. */
  datatype IgnoreInfo = IgnoreInfo(matches: string -> bool, symbol: Option<string>)

  /** Some ignore rule covers this symbol in this library. */
  ghost predicate Ignored(ignores: seq<IgnoreInfo>, path: string, symbol: string) {
    exists i :: 0 <= i < |ignores| && ignores[i].matches(path) && (ignores[i].symbol == None || ignores[i].symbol == Some(symbol))
  }

  /** The hooks that apply to a library, in registration order. */
  ghost function Applicable(hooks: seq<HookInfo>, ignores: seq<IgnoreInfo>, path: string): seq<HookInfo> {
    if hooks == [] then []
    else
      var rest := Applicable(hooks[..|hooks| - 1], ignores, path);
      var hi := hooks[|hooks| - 1];
      if hi.matches(path) && !Ignored(ignores, path, hi.symbol) then rest + [hi] else rest
  }

  /** A hook is among them exactly when it is registered, matches, and every rule that matches is for
      another symbol. */
  lemma {:induction false} AppliesExactly(hooks: seq<HookInfo>, ignores: seq<IgnoreInfo>, path: string, hi: HookInfo)
    ensures hi in Applicable(hooks, ignores, path) <==>
      && hi in hooks && hi.matches(path)
      && forall ii <- ignores :: ii.matches(path) ==> ii.symbol.Some? && ii.symbol.value != hi.symbol
  {
    if hooks != [] { AppliesExactly(hooks[..|hooks| - 1], ignores, path, hi); }
    assert forall i :: 0 <= i < |ignores| ==> ignores[i] in ignores;
  }

  datatype Verdict = Attempt | SkipHook | SkipLibrary

  /** The inner loop over the ignore rules, for one hook. */
  method Judge(ignores: seq<IgnoreInfo>, path: string, symbol: string) returns (v: Verdict)
    ensures v == Attempt <==> !Ignored(ignores, path, symbol)
    ensures v == SkipLibrary ==> forall s :: Ignored(ignores, path, s)
  {
    for i := 0 to |ignores|
      invariant forall j :: 0 <= j < i && ignores[j].matches(path) ==> ignores[j].symbol != None && ignores[j].symbol != Some(symbol)
    {
      if ignores[i].matches(path) {
        if ignores[i].symbol == None { return SkipLibrary; }
        if ignores[i].symbol == Some(symbol) { return SkipHook; }
      }
    }
    return Attempt;
  }

  lemma {:induction false} NoneApplicable(hooks: seq<HookInfo>, ignores: seq<IgnoreInfo>, path: string)
    requires forall s :: Ignored(ignores, path, s)
    ensures Applicable(hooks, ignores, path) == []
  {
    if hooks != [] { NoneApplicable(hooks[..|hooks| - 1], ignores, path); }
  }

  /** The loop of xh_core_hook_impl: the hooks it attempts are exactly the applicable ones. */
  method Attempts(hooks: seq<HookInfo>, ignores: seq<IgnoreInfo>, path: string) returns (tried: seq<HookInfo>)
    ensures tried == Applicable(hooks, ignores, path)
  {
    tried := [];
    for i := 0 to |hooks|
      invariant tried == Applicable(hooks[..i], ignores, path)
    {
      assert hooks[..i + 1][..i] == hooks[..i];
      if hooks[i].matches(path) {
        var v := Judge(ignores, path, hooks[i].symbol);
        if v == SkipLibrary {
          NoneApplicable(hooks, ignores, path);
          NoneApplicable(hooks[..i], ignores, path);
          return;
        }
        if v == Attempt { tried := tried + [hooks[i]]; }
      }
    }
    assert hooks[..|hooks|] == hooks;
  }

  /** The first hook whose pattern matches. */
  ghost function FirstMatch(hooks: seq<HookInfo>, path: string): Option<HookInfo> {
    if hooks == [] then None
    else if hooks[0].matches(path) then Some(hooks[0])
    else FirstMatch(hooks[1..], path)
  }

  /** What the preselection of xh_core_refresh_impl really tests: the break after the label
      check_continue ends the search at the first matching hook, ignored or not. */
  ghost predicate Preselected(hooks: seq<HookInfo>, ignores: seq<IgnoreInfo>, path: string) {
    var f := FirstMatch(hooks, path);
    f.Some? && !Ignored(ignores, path, f.value.symbol)
  }

  /** The preselection loop. */
  method Preselect(hooks: seq<HookInfo>, ignores: seq<IgnoreInfo>, path: string) returns (matched: bool)
    ensures matched == Preselected(hooks, ignores, path)
  {
    matched := false;
    for i := 0 to |hooks|
      invariant !matched && FirstMatch(hooks, path) == FirstMatch(hooks[i..], path)
    {
      if hooks[i].matches(path) {
        var v := Judge(ignores, path, hooks[i].symbol);
        matched := v == Attempt;
        return;
      }
    }
  }

  lemma {:induction false} FirstMatchAt(hooks: seq<HookInfo>, path: string)
    ensures FirstMatch(hooks, path).Some? ==>
              exists i :: 0 <= i < |hooks| && hooks[i].matches(path) && FirstMatch(hooks, path) == Some(hooks[i]) &&
                          forall j :: 0 <= j < i ==> !hooks[j].matches(path)
    ensures FirstMatch(hooks, path).None? ==> forall j :: 0 <= j < |hooks| ==> !hooks[j].matches(path)
  {
    if hooks != [] && !hooks[0].matches(path) {
      FirstMatchAt(hooks[1..], path);
      if FirstMatch(hooks[1..], path).Some? {
        var i :| 0 <= i < |hooks[1..]| && hooks[1..][i].matches(path) && FirstMatch(hooks[1..], path) == Some(hooks[1..][i]) &&
                 forall j :: 0 <= j < i ==> !hooks[1..][j].matches(path);
        assert hooks[i + 1] == hooks[1..][i];
        forall j | 0 <= j < i + 1 ensures !hooks[j].matches(path) { assert j > 0 ==> hooks[j] == hooks[1..][j - 1]; }
      }
      forall j | 0 <= j < |hooks| && FirstMatch(hooks[1..], path).None? ensures !hooks[j].matches(path) {
        assert j > 0 ==> hooks[j] == hooks[1..][j - 1];
      }
    }
  }

  lemma {:induction false} ApplicableSplit(a: seq<HookInfo>, b: seq<HookInfo>, ignores: seq<IgnoreInfo>, path: string)
    ensures Applicable(a + b, ignores, path) == Applicable(a, ignores, path) + Applicable(b, ignores, path)
    decreases |b|
  {
    if b == [] {
      assert a + b == a;
    } else {
      assert (a + b)[..|a + b| - 1] == a + b[..|b| - 1];
      ApplicableSplit(a, b[..|b| - 1], ignores, path);
    }
  }

  lemma {:induction false} ApplicableMatches(hooks: seq<HookInfo>, ignores: seq<IgnoreInfo>, path: string)
    ensures forall i :: 0 <= i < |Applicable(hooks, ignores, path)| ==>
              Applicable(hooks, ignores, path)[i].matches(path) && !Ignored(ignores, path, Applicable(hooks, ignores, path)[i].symbol)
    ensures (forall j :: 0 <= j < |hooks| ==> !hooks[j].matches(path)) ==> Applicable(hooks, ignores, path) == []
  {
    if hooks != [] { ApplicableMatches(hooks[..|hooks| - 1], ignores, path); }
  }

  /** A first match that no rule ignores is the first hook attempted. */
  lemma FirstApplicable(hooks: seq<HookInfo>, ignores: seq<IgnoreInfo>, path: string, i: nat)
    requires i < |hooks| && hooks[i].matches(path) && forall j :: 0 <= j < i ==> !hooks[j].matches(path)
    requires !Ignored(ignores, path, hooks[i].symbol)
    ensures Applicable(hooks, ignores, path) != [] && Applicable(hooks, ignores, path)[0] == hooks[i]
  {
    hide Ignored;
    var a, h, b := hooks[..i], hooks[i], hooks[i + 1..];
    assert hooks == a + ([h] + b);
    ApplicableSplit(a, [h] + b, ignores, path);
    ApplicableSplit([h], b, ignores, path);
    ApplicableMatches(a, ignores, path);
    assert Applicable([h], ignores, path) == [h] by { assert [h][..0] == []; }
  }

  /** A selected library gets at least one attempt, and its first attempt is its first match. */
  lemma SelectedIsAttempted(hooks: seq<HookInfo>, ignores: seq<IgnoreInfo>, path: string)
    ensures Preselected(hooks, ignores, path) <==>
              Applicable(hooks, ignores, path) != [] && FirstMatch(hooks, path) == Some(Applicable(hooks, ignores, path)[0])
  {
    hide Ignored;
    FirstMatchAt(hooks, path);
    ApplicableMatches(hooks, ignores, path);
    var f := FirstMatch(hooks, path);
    if f.Some? && !Ignored(ignores, path, f.value.symbol) {
      var i :| 0 <= i < |hooks| && hooks[i].matches(path) && f == Some(hooks[i]) && forall j :: 0 <= j < i ==> !hooks[j].matches(path);
      FirstApplicable(hooks, ignores, path, i);
    }
  }

  /** Selection agrees with what the library would get exactly when the library gets nothing
      or its first matching hook is not ignored. */
  lemma SelectionExact(hooks: seq<HookInfo>, ignores: seq<IgnoreInfo>, path: string)
    ensures (Preselected(hooks, ignores, path) <==> Applicable(hooks, ignores, path) != []) <==>
              Applicable(hooks, ignores, path) == [] ||
              exists i :: 0 <= i < |hooks| && hooks[i].matches(path) && !Ignored(ignores, path, hooks[i].symbol) &&
                          forall j :: 0 <= j < i ==> !hooks[j].matches(path)
  {
    hide Ignored;
    SelectedIsAttempted(hooks, ignores, path);
    FirstMatchAt(hooks, path);
    if i :| 0 <= i < |hooks| && hooks[i].matches(path) && !Ignored(ignores, path, hooks[i].symbol) && forall j :: 0 <= j < i ==> !hooks[j].matches(path) {
      FirstMatchIs(hooks, path, i);
    }
  }

  lemma {:induction false} FirstMatchIs(hooks: seq<HookInfo>, path: string, i: nat)
    requires i < |hooks| && hooks[i].matches(path) && forall j :: 0 <= j < i ==> !hooks[j].matches(path)
    ensures FirstMatch(hooks, path) == Some(hooks[i])
  {
    if i > 0 {
      assert hooks[1..][i - 1] == hooks[i];
      FirstMatchIs(hooks[1..], path, i - 1);
    }
  }

  // ---- what one more rule changes ----

  /** A new hook comes after all others where it applies, and nowhere else. */
  lemma RegisteredLast(hooks: seq<HookInfo>, hi: HookInfo, ignores: seq<IgnoreInfo>, path: string)
    ensures Applicable(hooks + [hi], ignores, path) ==
            Applicable(hooks, ignores, path) + if hi.matches(path) && !Ignored(ignores, path, hi.symbol) then [hi] else []
  {
    assert (hooks + [hi])[..|hooks|] == hooks;
  }

  /** A rule covers a hook of a library. */
  predicate Covers(ii: IgnoreInfo, path: string, symbol: string) {
    ii.matches(path) && (ii.symbol == None || ii.symbol == Some(symbol))
  }

  ghost function Uncovered(hooks: seq<HookInfo>, ii: IgnoreInfo, path: string): seq<HookInfo> {
    if hooks == [] then []
    else
      var rest, hi := Uncovered(hooks[..|hooks| - 1], ii, path), hooks[|hooks| - 1];
      if Covers(ii, path, hi.symbol) then rest else rest + [hi]
  }

  /** A new rule takes away exactly the hooks it covers; the others keep their order. */
  lemma {:induction false} IgnoredMore(hooks: seq<HookInfo>, ignores: seq<IgnoreInfo>, ii: IgnoreInfo, path: string)
    ensures Applicable(hooks, ignores + [ii], path) == Uncovered(Applicable(hooks, ignores, path), ii, path)
  {
    hide Ignored, Covers;
    if hooks != [] {
      var hi := hooks[|hooks| - 1];
      IgnoredMore(hooks[..|hooks| - 1], ignores, ii, path);
      IgnoredOr(ignores, ii, path, hi.symbol);
      var rest := Applicable(hooks[..|hooks| - 1], ignores, path);
      assert (rest + [hi])[..|rest|] == rest;
    }
  }

  lemma IgnoredOr(ignores: seq<IgnoreInfo>, ii: IgnoreInfo, path: string, symbol: string)
    ensures Ignored(ignores + [ii], path, symbol) <==> Ignored(ignores, path, symbol) || Covers(ii, path, symbol)
  {
    var all := ignores + [ii];
    if Ignored(ignores, path, symbol) {
      var k :| 0 <= k < |ignores| && ignores[k].matches(path) && (ignores[k].symbol == None || ignores[k].symbol == Some(symbol));
      assert all[k] == ignores[k];
    }
    assert all[|ignores|] == ii;
  }

  /** Not every library with an applicable hook is selected: an ignored first match hides a
      later hook that applies. */
  lemma PreselectMisses()
    ensures exists hooks: seq<HookInfo>, ignores: seq<IgnoreInfo>, path: string ::
              Applicable(hooks, ignores, path) != [] && !Preselected(hooks, ignores, path)
  {
    var all := (p: string) => true;
    var h1, h2 := HookInfo(all, "open", 1), HookInfo(all, "close", 2);
    var hooks, ignores, path := [h1, h2], [IgnoreInfo(all, Some("open"))], "/system/lib/libc.so";
    assert ignores[0].matches(path) && Ignored(ignores, path, "open");
    assert !Ignored(ignores, path, "close");
    assert hooks[..1] == [h1] && [h1][..0] == [];
    assert Applicable(hooks, ignores, path) == Applicable([h1], ignores, path) + [h2];
    assert FirstMatch(hooks, path) == Some(h1);
    assert !Preselected(hooks, ignores, path);
  }
}
