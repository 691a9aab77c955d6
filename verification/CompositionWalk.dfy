/** How the outcome of `resolve_extends` is decided by the walk along parent references. */
module CompositionWalk {
  import opened Wrappers
  import opened Composition

  // ---------- The walk, without any cycle detection ----------

  /** The use case reached after following `k` parent references. */
  function Ancestor(reg: Registry, uc: UseCase, k: nat): Option<UseCase> {
    if k == 0 then Some(uc)
    else match Ancestor(reg, uc, k - 1)
      case None => None
      case Some(a) => ParentOf(reg, a)
  }

  ghost predicate NeverEnds(reg: Registry, uc: UseCase) {
    forall k: nat :: Ancestor(reg, uc, k).Some?
  }

  /** The walk reaches, after `k` steps, a use case whose parent is missing or not a use case. */
  predicate BrokenAt(reg: Registry, uc: UseCase, k: nat) {
    var a := Ancestor(reg, uc, k);
    a.Some? && a.value.parentRef.Some? && ParentOf(reg, a.value).None?
  }

  predicate RootAt(reg: Registry, uc: UseCase, k: nat) {
    var a := Ancestor(reg, uc, k);
    a.Some? && a.value.parentRef.None?
  }

  predicate LevelsClash(reg: Registry, uc: UseCase, k: nat) {
    exists i, j :: 0 <= i < j <= k && ClashAt(reg, uc, i, j)
  }

  predicate ClashAt(reg: Registry, uc: UseCase, i: nat, j: nat) {
    var a, b := Ancestor(reg, uc, i), Ancestor(reg, uc, j);
    a.Some? && b.Some? && Clash(b.value, a.value)
  }

  predicate NameRepeats(reg: Registry, uc: UseCase, i: nat, k: nat) {
    var a, b := Ancestor(reg, uc, i), Ancestor(reg, uc, k);
    i < k && a.Some? && b.Some? && a.value.Name() == b.value.Name()
  }

  /** `SpecRegistry.register` refuses a second spec of one kind and name. */
  ghost predicate UniqueNames(reg: Registry) {
    forall a, b :: a in UseCases(reg) && b in UseCases(reg) && a.Name() == b.Name() ==> a == b
  }

  /** The use case resolved is the registered one, if its name is registered at all. */
  ghost predicate Coherent(reg: Registry, uc: UseCase) {
    UniqueNames(reg) && forall a :: a in UseCases(reg) && a.Name() == uc.Name() ==> a == uc
  }

  lemma {:induction false} AncestorAdds(reg: Registry, uc: UseCase, m: nat, n: nat)
    requires Ancestor(reg, uc, m).Some?
    ensures Ancestor(reg, uc, m + n) == Ancestor(reg, Ancestor(reg, uc, m).value, n)
  {
    if n > 0 {
      AncestorAdds(reg, uc, m, n - 1);
    }
  }

  lemma {:induction false} EarlierAncestor(reg: Registry, uc: UseCase, j: nat, k: nat)
    requires j <= k && Ancestor(reg, uc, k).Some?
    ensures Ancestor(reg, uc, j).Some?
    ensures 0 < j ==> Ancestor(reg, uc, j).value in UseCases(reg)
    decreases k - j
  {
    if j < k {
      EarlierAncestor(reg, uc, j + 1, k);
    }
  }

  /** A use case met twice is met for ever. */
  lemma {:induction false} PeriodicWalk(reg: Registry, uc: UseCase, i: nat, k: nat, n: nat)
    requires i < k && Ancestor(reg, uc, i).Some? && Ancestor(reg, uc, i) == Ancestor(reg, uc, k)
    ensures Ancestor(reg, uc, n).Some?
  {
    if n <= k {
      EarlierAncestor(reg, uc, n, k);
    } else {
      PeriodicWalk(reg, uc, i, k, n - (k - i));
      AncestorAdds(reg, uc, k, n - k);
      AncestorAdds(reg, uc, i, n - k);
    }
  }

  lemma WalkStops(reg: Registry, uc: UseCase, k: nat, n: nat)
    requires RootAt(reg, uc, k) || BrokenAt(reg, uc, k)
    requires k < n
    ensures Ancestor(reg, uc, n).None?
  {
    if Ancestor(reg, uc, n).Some? {
      EarlierAncestor(reg, uc, k + 1, n);
    }
  }

  // ---------- The descent of the source ----------

  /** Levels from `uc` to the root, found with the source's check of names already in the chain. */
  function Levels(reg: Registry, uc: UseCase, chain: seq<string>): Result<seq<UseCase>, CompositionError>
    decreases Unseen(reg, chain)
  {
    if uc.parentRef.None? then Ok([uc])
    else match ParentOf(reg, uc)
      case None => Err(ParentNotFound)
      case Some(parent) =>
        if parent.Name() in chain then Err(CircularExtends)
        else
          assert parent.Name() in Unseen(reg, chain);
          match Levels(reg, parent, chain + [parent.Name()])
          case Err(e) => Err(e)
          case Ok(up) => Ok([uc] + up)
  }

  /** Levels, listed from leaf to root, merged from the root downwards. */
  function Flatten(levels: seq<UseCase>): Option<UseCase>
    requires levels != []
  {
    if |levels| == 1 then Some(levels[0])
    else TryMerge(Flatten(levels[1..]), Some(levels[0]))
  }

  function Names(levels: seq<UseCase>): seq<string> {
    if levels == [] then [] else [levels[0].Name()] + Names(levels[1..])
  }

  /** `Resolve` descends first and merges on the way back. */
  lemma {:induction false} ResolveIsDescentThenMerge(reg: Registry, uc: UseCase, chain: seq<string>)
    ensures match Levels(reg, uc, chain)
      case Err(e) => Resolve(reg, uc, chain) == Err(e) && e != StepIdClash
      case Ok(w) =>
        w != [] && w[0] == uc && (|w| == 1 <==> uc.parentRef.None?) &&
        match Flatten(w)
        case None => Resolve(reg, uc, chain) == Err(StepIdClash)
        case Some(flat) =>
          Resolve(reg, uc, chain) ==
          if |w| == 1 then Ok(Resolution(uc, [uc.Name()], []))
          else Ok(Resolution(flat, chain + Names(w[1..]), StepIds(Flatten(w[1..]).value.steps)))
    decreases Unseen(reg, chain)
  {
    if uc.parentRef.Some? && ParentOf(reg, uc).Some? {
      var parent := ParentOf(reg, uc).value;
      if parent.Name() !in chain {
        assert parent.Name() in Unseen(reg, chain);
        var longer := chain + [parent.Name()];
        ResolveIsDescentThenMerge(reg, parent, longer);
        if Levels(reg, parent, longer).Ok? {
          var up := Levels(reg, parent, longer).value;
          var w := [uc] + up;
          assert w[0] == uc && w[1..] == up;
          assert Names(up) == [parent.Name()] + Names(up[1..]);
          assert longer + Names(up[1..]) == chain + Names(up);
          assert |up| == 1 ==> longer == chain + Names(up);
          assert Levels(reg, uc, chain) == Ok(w);
          assert Flatten(w) == TryMerge(Flatten(up), Some(uc));
        }
      }
    }
  }

  /** The chain after `j` steps of a walk: the names of the use cases met so far. */
  ghost predicate ChainOf(reg: Registry, uc: UseCase, j: nat, chain: seq<string>) {
    |chain| == j + 1 &&
    forall i {:trigger chain[i]} :: 0 <= i <= j ==> Ancestor(reg, uc, i).Some? && chain[i] == Ancestor(reg, uc, i).value.Name()
  }

  ghost predicate Distinct(names: seq<string>) {
    forall i, j :: 0 <= i < j < |names| ==> names[i] != names[j]
  }

  /** `w` lists the use cases from step `j` of the walk to its root, all with fresh names. */
  ghost predicate Reaches(reg: Registry, uc: UseCase, j: nat, chain: seq<string>, w: seq<UseCase>) {
    && w != [] && RootAt(reg, uc, j + |w| - 1)
    && (forall i {:trigger w[i]} :: 0 <= i < |w| ==> Ancestor(reg, uc, j + i) == Some(w[i]))
    && ChainOf(reg, uc, j + |w| - 1, chain + Names(w[1..])) && Distinct(chain + Names(w[1..]))
  }

  ghost predicate SomeNameRepeats(reg: Registry, uc: UseCase) {
    exists i, k :: NameRepeats(reg, uc, i, k)
  }

  ghost predicate Breaks(reg: Registry, uc: UseCase) {
    exists k :: BrokenAt(reg, uc, k)
  }

  /** What the descent finds, from any point of the walk, by the walk alone. */
  lemma {:induction false} DescentFollowsWalk(reg: Registry, uc: UseCase, j: nat, chain: seq<string>)
    requires Ancestor(reg, uc, j).Some? && ChainOf(reg, uc, j, chain) && Distinct(chain)
    ensures match Levels(reg, Ancestor(reg, uc, j).value, chain)
      case Err(CircularExtends) => SomeNameRepeats(reg, uc)
      case Err(ParentNotFound) => Breaks(reg, uc) && !SomeNameRepeats(reg, uc)
      case Err(StepIdClash) => false
      case Ok(w) => Reaches(reg, uc, j, chain, w)
    decreases Unseen(reg, chain)
  {
    hide ParentOf, Reaches, RootAt, BrokenAt, NameRepeats, Distinct, ChainOf;
    var a := Ancestor(reg, uc, j).value;
    if a.parentRef.None? {
      DescentEnds(reg, uc, j, chain);
    } else if ParentOf(reg, a).None? {
      DescentEnds(reg, uc, j, chain);
    } else {
      var parent := ParentOf(reg, a).value;
      assert Ancestor(reg, uc, j + 1) == Some(parent);
      if parent.Name() in chain {
        ChainMeets(reg, uc, j, chain, parent);
      } else {
        assert parent.Name() in Unseen(reg, chain);
        var longer := chain + [parent.Name()];
        ChainGrows(reg, uc, j, chain, parent);
        DescentFollowsWalk(reg, uc, j + 1, longer);
        if Levels(reg, parent, longer).Ok? {
          ReachesFurther(reg, uc, j, chain, Levels(reg, parent, longer).value);
        }
      }
    }
  }

  /** The two ends of the descent: at a root, and at a use case without a parent to be found. */
  lemma DescentEnds(reg: Registry, uc: UseCase, j: nat, chain: seq<string>)
    requires Ancestor(reg, uc, j).Some? && ChainOf(reg, uc, j, chain) && Distinct(chain)
    ensures var a := Ancestor(reg, uc, j).value;
      && (a.parentRef.None? ==> Reaches(reg, uc, j, chain, [a]))
      && (a.parentRef.Some? && ParentOf(reg, a).None? ==> Breaks(reg, uc) && !SomeNameRepeats(reg, uc))
  {
    hide ParentOf;
    var a := Ancestor(reg, uc, j).value;
    if a.parentRef.None? {
      assert chain + Names([a][1..]) == chain;
    } else if ParentOf(reg, a).None? {
      assert BrokenAt(reg, uc, j);
      NoRepeatBeforeEnd(reg, uc, j, chain);
    }
  }

  lemma ChainMeets(reg: Registry, uc: UseCase, j: nat, chain: seq<string>, parent: UseCase)
    requires ChainOf(reg, uc, j, chain) && Ancestor(reg, uc, j + 1) == Some(parent) && parent.Name() in chain
    ensures SomeNameRepeats(reg, uc)
  {
    hide ParentOf, Ancestor;
    var i :| 0 <= i <= j && chain[i] == parent.Name();
    assert NameRepeats(reg, uc, i, j + 1);
  }

  lemma ChainGrows(reg: Registry, uc: UseCase, j: nat, chain: seq<string>, parent: UseCase)
    requires ChainOf(reg, uc, j, chain) && Distinct(chain)
    requires Ancestor(reg, uc, j + 1) == Some(parent) && parent.Name() !in chain
    ensures ChainOf(reg, uc, j + 1, chain + [parent.Name()]) && Distinct(chain + [parent.Name()])
  {
    var longer := chain + [parent.Name()];
    assert forall i {:trigger longer[i]} :: 0 <= i <= j ==> longer[i] == chain[i];
  }

  lemma ReachesFurther(reg: Registry, uc: UseCase, j: nat, chain: seq<string>, up: seq<UseCase>)
    requires Ancestor(reg, uc, j).Some? && up != []
    requires Reaches(reg, uc, j + 1, chain + [up[0].Name()], up)
    ensures Reaches(reg, uc, j, chain, [Ancestor(reg, uc, j).value] + up)
  {
    hide RootAt, ParentOf, Names;
    var a := Ancestor(reg, uc, j).value;
    var w := [a] + up;
    var k := (j + 1) + |up| - 1;
    assert w[1..] == up && k == j + |w| - 1;
    SameNames(chain, up);
    assert RootAt(reg, uc, k);
    assert ChainOf(reg, uc, k, chain + Names(w[1..])) && Distinct(chain + Names(w[1..]));
    forall i | 0 <= i < |w| ensures Ancestor(reg, uc, j + i) == Some(w[i]) {
      ReachedAt(reg, uc, j, chain, up, i);
    }
  }

  lemma SameNames(chain: seq<string>, up: seq<UseCase>)
    requires up != []
    ensures chain + [up[0].Name()] + Names(up[1..]) == chain + Names(up)
  {
  }

  lemma ReachedAt(reg: Registry, uc: UseCase, j: nat, chain: seq<string>, up: seq<UseCase>, i: nat)
    requires Ancestor(reg, uc, j).Some? && up != [] && i <= |up|
    requires Reaches(reg, uc, j + 1, chain + [up[0].Name()], up)
    ensures Ancestor(reg, uc, j + i) == Some(([Ancestor(reg, uc, j).value] + up)[i])
  {
    if i > 0 {
      var n := i - 1;
      assert Ancestor(reg, uc, (j + 1) + n) == Some(up[n]);
      assert (j + 1) + n == j + i;
    }
  }

  lemma NoRepeatBeforeEnd(reg: Registry, uc: UseCase, j: nat, chain: seq<string>)
    requires ChainOf(reg, uc, j, chain) && Distinct(chain)
    requires RootAt(reg, uc, j) || BrokenAt(reg, uc, j)
    ensures !SomeNameRepeats(reg, uc)
  {
    forall i: nat, k: nat ensures !NameRepeats(reg, uc, i, k) {
      if k > j { WalkStops(reg, uc, j, k); }
      else if i < k { assert chain[i] != chain[k]; }
    }
  }

  // ---------- Main results ----------

  /** The walk ends at a root after `k` steps, and `clash` says whether two of its levels share a step id. */
  ghost predicate EndsAt(reg: Registry, uc: UseCase, k: nat, clash: bool) {
    RootAt(reg, uc, k) && LevelsClash(reg, uc, k) == clash
  }

  ghost predicate Ends(reg: Registry, uc: UseCase, clash: bool) {
    exists k :: EndsAt(reg, uc, k, clash)
  }

  /** The outcome, for every registry and use case: which error, or which chain. */
  lemma OutcomeByWalk(reg: Registry, uc: UseCase)
    ensures match Resolve(reg, uc, [uc.Name()])
      case Err(CircularExtends) => SomeNameRepeats(reg, uc)
      case Err(ParentNotFound) => Breaks(reg, uc) && !SomeNameRepeats(reg, uc)
      case Err(StepIdClash) => Ends(reg, uc, true) && !SomeNameRepeats(reg, uc)
      case Ok(r) => Ends(reg, uc, false) && !SomeNameRepeats(reg, uc) && exists k ::
        EndsAt(reg, uc, k, false) && ChainOf(reg, uc, k, r.chain) && Distinct(r.chain)
  {
    var chain := [uc.Name()];
    assert Ancestor(reg, uc, 0) == Some(uc);
    assert ChainOf(reg, uc, 0, chain);
    DescentFollowsWalk(reg, uc, 0, chain);
    ResolveIsDescentThenMerge(reg, uc, chain);
    if Levels(reg, uc, chain).Ok? {
      var w := Levels(reg, uc, chain).value;
      NoRepeatBeforeEnd(reg, uc, |w| - 1, chain + Names(w[1..]));
      ClashOfLevels(reg, uc, w);
      assert EndsAt(reg, uc, |w| - 1, Flatten(w).None?);
      assert |w| == 1 ==> chain + Names(w[1..]) == chain;
    }
  }

  lemma ClashOfLevels(reg: Registry, uc: UseCase, w: seq<UseCase>)
    requires w != [] && forall i :: 0 <= i < |w| ==> Ancestor(reg, uc, i) == Some(w[i])
    ensures Flatten(w).None? == LevelsClash(reg, uc, |w| - 1)
  {
    FlattenDefined(w);
    forall i, j | 0 <= i < j < |w| ensures Clash(w[j], w[i]) == ClashAt(reg, uc, i, j) {
      assert Ancestor(reg, uc, i) == Some(w[i]) && Ancestor(reg, uc, j) == Some(w[j]);
    }
    if Flatten(w).None? {
      var i, j :| 0 <= i < j < |w| && Clash(w[j], w[i]);
      assert ClashAt(reg, uc, i, j);
    }
  }

  /** Merging all levels is defined exactly when no two of them share a step id. */
  lemma {:induction false} FlattenDefined(w: seq<UseCase>)
    requires w != []
    ensures Flatten(w).None? <==> exists i, j :: 0 <= i < j < |w| && Clash(w[j], w[i])
    ensures Flatten(w).Some? ==> forall s :: s in Flatten(w).value.steps <==> exists i :: 0 <= i < |w| && s in w[i].steps
  {
    if |w| > 1 {
      var up := w[1..];
      FlattenDefined(up);
      if Flatten(up).None? {
        var i, j :| 0 <= i < j < |up| && Clash(up[j], up[i]);
        assert Clash(w[j + 1], w[i + 1]);
      } else {
        var p := Flatten(up).value;
        if Clash(p, w[0]) {
          var s, c :| s in p.steps && c in w[0].steps && s.id == c.id;
          var i :| 0 <= i < |up| && s in up[i].steps;
          assert Clash(w[i + 1], w[0]);
        } else {
          forall i, j | 0 <= i < j < |w| ensures !Clash(w[j], w[i]) {
            if i > 0 { assert !Clash(up[j - 1], up[i - 1]); }
            else { assert forall s :: s in up[j - 1].steps ==> s in p.steps; }
          }
          forall s ensures s in Merge(p, w[0]).steps <==> exists i :: 0 <= i < |w| && s in w[i].steps {
            assert s in p.steps <==> exists i :: 0 <= i < |up| && s in up[i].steps;
            if s in p.steps {
              var i :| 0 <= i < |up| && s in up[i].steps;
              assert s in w[i + 1].steps;
            }
            if i :| 0 <= i < |w| && s in w[i].steps {
              if i > 0 { assert s in up[i - 1].steps; }
            }
          }
        }
      }
    }
  }

  /** With unique names the outcome is decided by the walk alone: which of its four ends it meets. */
  lemma OutcomeDecided(reg: Registry, uc: UseCase)
    requires Coherent(reg, uc)
    ensures var r := Resolve(reg, uc, [uc.Name()]);
      && (r == Err(CircularExtends) <==> NeverEnds(reg, uc))
      && (r == Err(ParentNotFound) <==> Breaks(reg, uc))
      && (r == Err(StepIdClash) <==> Ends(reg, uc, true))
      && (r.Ok? <==> Ends(reg, uc, false))
  {
    OutcomeByWalk(reg, uc);
    RepeatsIffEndless(reg, uc);
    EndsExclusive(reg, uc);
    match Resolve(reg, uc, [uc.Name()]) {
      case Ok(_) =>
      case Err(CircularExtends) =>
      case Err(ParentNotFound) =>
      case Err(StepIdClash) =>
    }
  }

  /** A walk has at most one end. */
  lemma EndsExclusive(reg: Registry, uc: UseCase)
    ensures NeverEnds(reg, uc) ==> !Breaks(reg, uc) && !Ends(reg, uc, true) && !Ends(reg, uc, false)
    ensures Breaks(reg, uc) ==> !Ends(reg, uc, true) && !Ends(reg, uc, false)
    ensures !(Ends(reg, uc, true) && Ends(reg, uc, false))
  {
    forall k: nat, n: nat | RootAt(reg, uc, k) || BrokenAt(reg, uc, k)
      ensures !NeverEnds(reg, uc)
      ensures RootAt(reg, uc, n) || BrokenAt(reg, uc, n) ==> k == n
    {
      WalkStops(reg, uc, k, k + 1);
      if k < n { WalkStops(reg, uc, k, n); }
      else if n < k && (RootAt(reg, uc, n) || BrokenAt(reg, uc, n)) { WalkStops(reg, uc, n, k); }
    }
  }

  lemma RepeatsIffEndless(reg: Registry, uc: UseCase)
    requires UniqueNames(reg)
    ensures SomeNameRepeats(reg, uc) <==> NeverEnds(reg, uc) || exists k :: NameRepeats(reg, uc, 0, k)
    ensures Coherent(reg, uc) ==> (SomeNameRepeats(reg, uc) <==> NeverEnds(reg, uc))
  {
    forall i: nat, k: nat | NameRepeats(reg, uc, i, k) && (i > 0 || Coherent(reg, uc))
      ensures NeverEnds(reg, uc)
    {
      EarlierAncestor(reg, uc, k, k);
      EarlierAncestor(reg, uc, i, i);
      forall n: nat ensures Ancestor(reg, uc, n).Some? {
        PeriodicWalk(reg, uc, i, k, n);
      }
    }
    if NeverEnds(reg, uc) {
      OutcomeByWalk(reg, uc);
      EndsExclusive(reg, uc);
      match Resolve(reg, uc, [uc.Name()]) {
        case Err(CircularExtends) =>
        case Err(ParentNotFound) => assert false;
        case Err(StepIdClash) => assert false;
        case Ok(_) => assert false;
      }
    }
  }

  /** Without coherence the name check also fires on a walk that ends: exactly when an ancestor
      bears the name of the use case being resolved. */
  lemma CircularWithoutCoherence(reg: Registry, uc: UseCase)
    requires UniqueNames(reg)
    ensures Resolve(reg, uc, [uc.Name()]) == Err(CircularExtends) <==>
            NeverEnds(reg, uc) || exists k :: NameRepeats(reg, uc, 0, k)
  {
    OutcomeByWalk(reg, uc);
    RepeatsIffEndless(reg, uc);
  }
}
