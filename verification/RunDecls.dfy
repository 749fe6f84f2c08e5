/** Running the declarations named by filters and reporting the filters that named
    none. regexec is a parameter: exec(pattern, name). */
module RunDecls {
  import opened Basics
  import Regex
  import opened Glob

  /** The bits of a decl_state: decl_re_built, decl_ran and decl_did_one. */
  datatype DeclState = DeclState(reBuilt: bool, ran: bool, didOne: bool)

  const DO_NOTHING := DeclState(false, false, false)

  predicate Hits(exec: (string, string) -> bool, filter: string, name: string) {
    exec(Build(filter), name)
  }

  predicate HitsAny(exec: (string, string) -> bool, filter: string, names: seq<string>) {
    exists k :: 0 <= k < |names| && Hits(exec, filter, names[k])
  }

  /** A filter with '*' selects every name it matches, another only the first. */
  predicate Selects(exec: (string, string) -> bool, filter: string, seen: seq<string>, name: string) {
    Hits(exec, filter, name) && ('*' in filter || !HitsAny(exec, filter, seen))
  }

  predicate Selected(exec: (string, string) -> bool, filters: Option<seq<string>>, seen: seq<string>, name: string) {
    filters.None? || exists i :: 0 <= i < |filters.value| && Selects(exec, filters.value[i], seen, name)
  }

  /** What is kept of a filter after the names seen. A filter is compiled when it is first
      looked at; one that has had its only hit is not looked at again. */
  ghost predicate Tracks(exec: (string, string) -> bool, filter: string, st: DeclState, re: string, seen: seq<string>) {
    && (st.reBuilt <==> seen != [])
    && (st.reBuilt ==> re == Build(filter))
    && (st.didOne <==> st.reBuilt && '*' !in filter)
    && (st.ran <==> HitsAny(exec, filter, seen))
  }

  lemma SeenOneMore(exec: (string, string) -> bool, filter: string, seen: seq<string>, name: string)
    ensures HitsAny(exec, filter, seen + [name]) <==> HitsAny(exec, filter, seen) || Hits(exec, filter, name)
  {
    var all := seen + [name];
    assert all[|seen|] == name;
    assert forall k :: 0 <= k < |seen| ==> all[k] == seen[k];
  }

  ghost predicate TracksAll(exec: (string, string) -> bool, filters: seq<string>, states: seq<DeclState>,
                            res: seq<string>, seen: seq<string>) {
    && |states| == |res| == |filters|
    && forall i :: 0 <= i < |filters| ==> Tracks(exec, filters[i], states[i], res[i], seen)
  }

  /** The turn of one filter, as in the loop body of should_run_decl. asserted is what the
      debug-only assertion in it finds: it reads the stored state, which does not yet say
      that the filter has been compiled, so it fails exactly at a hit on the first name. */
  method LookAt(exec: (string, string) -> bool, filter: string, st: DeclState, re: string, name: string,
                ghost seen: seq<string>)
    returns (st': DeclState, re': string, hit: bool, asserted: bool)
    requires '\0' !in filter && Tracks(exec, filter, st, re, seen)
    ensures Tracks(exec, filter, st', re', seen + [name])
    ensures hit <==> Selects(exec, filter, seen, name)
    ensures !asserted <==> seen == [] && Hits(exec, filter, name)
  {
    st', re', hit, asserted := st, re, false, true;
    SeenOneMore(exec, filter, seen, name);
    if st.ran && st.didOne {
      return;
    }
    if !st.reBuilt {
      var didOne;
      re', didOne := BuildMatcher(filter);
      st' := st'.(reBuilt := true, didOne := didOne);
    }
    if exec(re', name) {
      asserted := st != DO_NOTHING;
      st' := st'.(ran := true);
      hit := true;
    }
  }

  predicate HitsFirst(exec: (string, string) -> bool, filters: seq<string>, name: string) {
    exists i :: 0 <= i < |filters| && Hits(exec, filters[i], name)
  }

  /** The filters below i have looked at the newest name, the others not yet. */
  ghost predicate TracksUpTo(exec: (string, string) -> bool, filters: seq<string>, states: seq<DeclState>,
                             res: seq<string>, seen: seq<string>, name: string, i: nat) {
    && |states| == |res| == |filters|
    && (forall j :: 0 <= j < i && j < |filters| ==> Tracks(exec, filters[j], states[j], res[j], seen + [name]))
    && (forall j :: i <= j < |filters| ==> Tracks(exec, filters[j], states[j], res[j], seen))
  }

  lemma TracksOneMore(exec: (string, string) -> bool, filters: seq<string>, states: seq<DeclState>,
                      res: seq<string>, seen: seq<string>, name: string, i: nat, st: DeclState, re: string)
    requires TracksUpTo(exec, filters, states, res, seen, name, i) && i < |filters|
    requires Tracks(exec, filters[i], st, re, seen + [name])
    ensures TracksUpTo(exec, filters, states[i := st], res[i := re], seen, name, i + 1)
  {
  }

  lemma TracksEnds(exec: (string, string) -> bool, filters: seq<string>, states: seq<DeclState>,
                   res: seq<string>, seen: seq<string>, name: string)
    ensures TracksAll(exec, filters, states, res, seen) <==> TracksUpTo(exec, filters, states, res, seen, name, 0)
    ensures TracksUpTo(exec, filters, states, res, seen, name, |filters|) ==>
              TracksAll(exec, filters, states, res, seen + [name])
  {
  }

  /** The loop of should_run_decl. */
  method LookAtAll(exec: (string, string) -> bool, name: string, filters: seq<string>,
                   states: array<DeclState>, matchers: array<string>, ghost seen: seq<string>)
    returns (hasHit: bool, asserted: bool)
    requires forall f :: f in filters ==> '\0' !in f
    requires TracksAll(exec, filters, states[..], matchers[..], seen)
    modifies states, matchers
    ensures hasHit <==> exists i :: 0 <= i < |filters| && Selects(exec, filters[i], seen, name)
    ensures !asserted <==> seen == [] && HitsFirst(exec, filters, name)
    ensures TracksAll(exec, filters, states[..], matchers[..], seen + [name])
  {
    hasHit, asserted := false, true;
    TracksEnds(exec, filters, states[..], matchers[..], seen, name);
    for i := 0 to |filters|
      invariant hasHit <==> exists j :: 0 <= j < i && Selects(exec, filters[j], seen, name)
      invariant !asserted <==> seen == [] && exists j :: 0 <= j < i && Hits(exec, filters[j], name)
      invariant TracksUpTo(exec, filters, states[..], matchers[..], seen, name, i)
    {
      ghost var sts, res := states[..], matchers[..];
      var st, re, hit, ok := LookAt(exec, filters[i], states[i], matchers[i], name, seen);
      states[i], matchers[i] := st, re;
      TracksOneMore(exec, filters, sts, res, seen, name, i, st, re);
      assert states[..] == sts[i := st] && matchers[..] == res[i := re];
      hasHit, asserted := hasHit || hit, asserted && ok;
    }
    TracksEnds(exec, filters, states[..], matchers[..], seen, name);
  }

  method ShouldRunDecl(exec: (string, string) -> bool, name: string, filters: Option<seq<string>>,
                       states: array<DeclState>, matchers: array<string>, ghost seen: seq<string>)
    returns (hasHit: bool, asserted: bool)
    requires filters.Some? ==> forall f :: f in filters.value ==> '\0' !in f
    requires filters.Some? ==> TracksAll(exec, filters.value, states[..], matchers[..], seen)
    modifies states, matchers
    ensures hasHit <==> Selected(exec, filters, seen, name)
    ensures !asserted <==> filters.Some? && seen == [] && HitsFirst(exec, filters.value, name)
    ensures filters.Some? ==> TracksAll(exec, filters.value, states[..], matchers[..], seen + [name])
  {
    if filters.None? {
      return true, true;
    }
    hasHit, asserted := LookAtAll(exec, name, filters.value, states, matchers, seen);
  }

  /** The declarations run, by index, and the filters reported as unable to find. The
      debug-only assertion would fail exactly if some filter hits the first declaration. */
  method Run(exec: (string, string) -> bool, names: seq<string>, filters: Option<seq<string>>)
    returns (ran: seq<nat>, unfound: seq<string>, asserted: bool)
    requires filters.Some? ==> forall f :: f in filters.value ==> '\0' !in f
    ensures ran == RunOf(exec, filters, names, |names|) && Increasing(ran)
    ensures forall k: nat :: k in ran <==> k < |names| && Selected(exec, filters, names[..k], names[k])
    ensures filters.None? ==> |ran| == |names| && forall k :: 0 <= k < |ran| ==> ran[k] == k
    ensures !asserted <==> filters.Some? && names != [] && HitsFirst(exec, filters.value, names[0])
    ensures unfound == if filters.None? then [] else UnfoundOf(exec, filters.value, names)
    ensures filters.Some? ==> exists idx :: Reports(exec, filters.value, names, idx, unfound)
  {
    var n := if filters.Some? then |filters.value| else 0;
    var states := new DeclState[n](_ => DO_NOTHING);
    var matchers := new string[n](_ => "");
    ran, asserted := [], true;
    for i := 0 to |names|
      invariant filters.Some? ==> TracksAll(exec, filters.value, states[..], matchers[..], names[..i])
      invariant ran == RunOf(exec, filters, names, i)
      invariant !asserted <==> filters.Some? && i > 0 && HitsFirst(exec, filters.value, names[0])
    {
      assert names[..i + 1] == names[..i] + [names[i]];
      var run, ok := ShouldRunDecl(exec, names[i], filters, states, matchers, names[..i]);
      asserted := asserted && ok;
      if run {
        ran := ran + [i];
      }
    }
    unfound := [];
    if filters.Some? {
      assert names[..|names|] == names;
      unfound := Unfound(exec, filters.value, states, matchers[..], names);
      ghost var idx := UnfoundPositions(exec, filters.value, names);
      assert Reports(exec, filters.value, names, idx, unfound);
    }
    RunsInOrder(exec, filters, names, |names|);
    forall k: nat
      ensures k in ran <==> k < |names| && Selected(exec, filters, names[..k], names[k])
    {
      RunOfIn(exec, filters, names, |names|, k);
    }
  }

  /** The last loop of run_decls. */
  method Unfound(exec: (string, string) -> bool, filters: seq<string>, states: array<DeclState>,
                 ghost res: seq<string>, ghost names: seq<string>)
    returns (unfound: seq<string>)
    requires TracksAll(exec, filters, states[..], res, names)
    ensures unfound == UnfoundOf(exec, filters, names)
  {
    unfound := [];
    for i := 0 to |filters|
      invariant unfound == UnfoundOf(exec, filters[..i], names)
    {
      assert filters[..i + 1][..i] == filters[..i];
      assert Tracks(exec, filters[i], states[i], res[i], names);
      var st := states[i];
      if st != DO_NOTHING {
        assert st.reBuilt;
        if st.ran {
          continue;
        }
      }
      unfound := unfound + [filters[i]];
    }
    assert filters[..|filters|] == filters;
  }

  /** Of the first n declarations, those some filter selects. */
  function RunOf(exec: (string, string) -> bool, filters: Option<seq<string>>, names: seq<string>, n: nat): seq<nat>
    requires n <= |names|
  {
    if n == 0 then []
    else RunOf(exec, filters, names, n - 1) +
         if Selected(exec, filters, names[..n - 1], names[n - 1]) then [n - 1] else []
  }

  function UnfoundOf(exec: (string, string) -> bool, filters: seq<string>, names: seq<string>): seq<string> {
    if filters == [] then []
    else UnfoundOf(exec, filters[..|filters| - 1], names) +
         if HitsAny(exec, filters[|filters| - 1], names) then [] else [filters[|filters| - 1]]
  }

  /** Strictly: nothing twice, and in the order of the positions. */
  ghost predicate Increasing(xs: seq<nat>) {
    forall i, j :: 0 <= i < j < |xs| ==> xs[i] < xs[j]
  }

  /** The filters at the positions idx, in their order; these are the positions of the filters
      that hit no name. */
  ghost predicate Reports(exec: (string, string) -> bool, filters: seq<string>, names: seq<string>, idx: seq<nat>,
                          unfound: seq<string>) {
    && Increasing(idx) && |idx| == |unfound|
    && (forall j :: 0 <= j < |idx| ==> idx[j] < |filters| && unfound[j] == filters[idx[j]])
    && forall i :: 0 <= i < |filters| ==> (i in idx <==> !HitsAny(exec, filters[i], names))
  }

  lemma {:induction false} RunsInOrder(exec: (string, string) -> bool, filters: Option<seq<string>>,
                                       names: seq<string>, n: nat)
    requires n <= |names|
    ensures Increasing(RunOf(exec, filters, names, n))
    ensures forall i :: 0 <= i < |RunOf(exec, filters, names, n)| ==> RunOf(exec, filters, names, n)[i] < n
    ensures filters.None? ==> |RunOf(exec, filters, names, n)| == n &&
                              forall i :: 0 <= i < n ==> RunOf(exec, filters, names, n)[i] == i
  {
    if n > 0 {
      RunsInOrder(exec, filters, names, n - 1);
    }
  }

  lemma ReportsOneMore(exec: (string, string) -> bool, filters: seq<string>, names: seq<string>, idx: seq<nat>,
                       unfound: seq<string>)
    requires filters != [] && Reports(exec, filters[..|filters| - 1], names, idx, unfound)
    ensures var n := |filters| - 1;
            if HitsAny(exec, filters[n], names) then Reports(exec, filters, names, idx, unfound)
            else Reports(exec, filters, names, idx + [n], unfound + [filters[n]])
  {
    var n := |filters| - 1;
    assert forall i :: i in idx ==> i < n;
    forall i | 0 <= i < n
      ensures i in idx <==> !HitsAny(exec, filters[i], names)
      ensures i in idx + [n] <==> i in idx
    {
      assert filters[..n][i] == filters[i];
    }
  }

  lemma {:induction false} UnfoundPositions(exec: (string, string) -> bool, filters: seq<string>, names: seq<string>)
    returns (idx: seq<nat>)
    ensures Reports(exec, filters, names, idx, UnfoundOf(exec, filters, names))
  {
    if filters == [] {
      idx := [];
    } else {
      var n := |filters| - 1;
      idx := UnfoundPositions(exec, filters[..n], names);
      ReportsOneMore(exec, filters, names, idx, UnfoundOf(exec, filters[..n], names));
      if HitsAny(exec, filters[n], names) {
        assert UnfoundOf(exec, filters, names) == UnfoundOf(exec, filters[..n], names);
      } else {
        idx := idx + [n];
      }
    }
  }

  // ----- with real regular expressions ------------------------------------------------

  /** Filter texts without the characters the translation does not treat. */
  predicate Ordinary(filter: string) {
    Covered(filter) && '.' !in filter
  }

  lemma HitsAreGlobs(filter: string, name: string)
    requires Ordinary(filter)
    ensures Hits(Regex.Exec, filter, name) <==> GlobMatch(filter, name)
  {
    Preserved(filter, name);
  }

  lemma {:induction false} UnfoundOfIn(exec: (string, string) -> bool, filters: seq<string>, names: seq<string>,
                                       f: string)
    ensures f in UnfoundOf(exec, filters, names) <==> f in filters && !HitsAny(exec, f, names)
  {
    if filters != [] {
      var n := |filters| - 1;
      UnfoundOfIn(exec, filters[..n], names, f);
      assert filters == filters[..n] + [filters[n]];
    }
  }

  /** A filter that is reported stands for none of the declared names, and one without a
      period that stands for none is reported. */
  lemma UnfoundExactly(filters: seq<string>, names: seq<string>, f: string)
    requires f in filters && Covered(f)
    ensures f in UnfoundOf(Regex.Exec, filters, names) ==> forall k :: 0 <= k < |names| ==> !GlobMatch(f, names[k])
    ensures '.' !in f && (forall k :: 0 <= k < |names| ==> !GlobMatch(f, names[k])) ==>
              f in UnfoundOf(Regex.Exec, filters, names)
  {
    UnfoundOfIn(Regex.Exec, filters, names, f);
    forall k | 0 <= k < |names|
      ensures GlobMatch(f, names[k]) ==> Hits(Regex.Exec, f, names[k])
      ensures '.' !in f ==> (Hits(Regex.Exec, f, names[k]) <==> GlobMatch(f, names[k]))
    {
      if GlobMatch(f, names[k]) {
        NothingMissed(f, names[k]);
      }
      if '.' !in f {
        Preserved(f, names[k]);
      }
    }
  }

  /** A filter that is the first declaration's own name is enough to make the debug-only
      assertion fail. */
  lemma AssertionFails(name: string)
    requires Ordinary(name) && '*' !in name
    ensures HitsFirst(Regex.Exec, [name], name)
  {
    GlobOfItself(name);
    HitsAreGlobs(name, name);
    assert Hits(Regex.Exec, [name][0], name);
  }

  lemma {:induction false} GlobOfItself(name: string)
    requires '*' !in name
    ensures GlobMatch(name, name)
  {
    if name != [] {
      GlobOfItself(name[1..]);
    }
  }

  lemma {:induction false} RunOfIn(exec: (string, string) -> bool, filters: Option<seq<string>>, names: seq<string>,
                                   n: nat, k: nat)
    requires n <= |names|
    ensures k in RunOf(exec, filters, names, n) <==> k < n && Selected(exec, filters, names[..k], names[k])
  {
    if n > 0 {
      RunOfIn(exec, filters, names, n - 1, k);
    }
  }

  /** A declaration runs exactly if no filters are given, or some filter stands for its
      name and either has a '*' or stands for no earlier name. */
  lemma RunsExactly(filters: seq<string>, names: seq<string>, k: nat)
    requires k < |names| && forall f :: f in filters ==> Ordinary(f)
    ensures k in RunOf(Regex.Exec, None, names, |names|)
    ensures k in RunOf(Regex.Exec, Some(filters), names, |names|) <==>
            exists i :: 0 <= i < |filters| && GlobMatch(filters[i], names[k]) &&
                        ('*' in filters[i] || forall e :: 0 <= e < k ==> !GlobMatch(filters[i], names[e]))
  {
    RunOfIn(Regex.Exec, None, names, |names|, k);
    RunOfIn(Regex.Exec, Some(filters), names, |names|, k);
    forall i | 0 <= i < |filters|
      ensures Selects(Regex.Exec, filters[i], names[..k], names[k]) <==>
              GlobMatch(filters[i], names[k]) &&
              ('*' in filters[i] || forall e :: 0 <= e < k ==> !GlobMatch(filters[i], names[e]))
    {
      SelectsIsGlob(filters[i], names, k);
    }
  }

  lemma SelectsIsGlob(f: string, names: seq<string>, k: nat)
    requires k < |names| && Ordinary(f)
    ensures Selects(Regex.Exec, f, names[..k], names[k]) <==>
            GlobMatch(f, names[k]) && ('*' in f || forall e :: 0 <= e < k ==> !GlobMatch(f, names[e]))
  {
    HitsAreGlobs(f, names[k]);
    forall e | 0 <= e < k
      ensures Hits(Regex.Exec, f, names[..k][e]) <==> GlobMatch(f, names[e])
    {
      HitsAreGlobs(f, names[e]);
    }
  }
}
