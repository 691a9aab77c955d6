/** The algebra of the partial merge, and what a flattened use case contains. */
module CompositionLaws {
  import opened Wrappers
  import opened Composition
  import opened CompositionWalk

  // ---------- Keyed lists ----------

  lemma {:induction false} UnknownSplits<T>(xs: seq<T>, ys: seq<T>, key: T -> string, known: set<string>)
    ensures Unknown(xs + ys, key, known) == Unknown(xs, key, known) + Unknown(ys, key, known)
  {
    if xs == [] {
      assert xs + ys == ys;
    } else {
      UnknownSplits(xs[1..], ys, key, known);
      assert (xs + ys)[0] == xs[0] && (xs + ys)[1..] == xs[1..] + ys;
      var head := if key(xs[0]) in known then [] else [xs[0]];
      Regroup(head, Unknown(xs[1..], key, known), Unknown(ys, key, known));
    }
  }

  lemma Regroup<T>(a: seq<T>, b: seq<T>, c: seq<T>)
    ensures a + (b + c) == a + b + c
  {
  }

  lemma {:induction false} UnknownTwice<T>(xs: seq<T>, key: T -> string, a: set<string>, b: set<string>)
    ensures Unknown(Unknown(xs, key, a), key, b) == Unknown(xs, key, a + b)
  {
    if xs != [] {
      UnknownTwice(xs[1..], key, a, b);
      UnknownSplits(if key(xs[0]) in a then [] else [xs[0]], Unknown(xs[1..], key, a), key, b);
    }
  }

  lemma {:induction false} UnknownMembers<T>(xs: seq<T>, key: T -> string, known: set<string>)
    ensures forall x :: x in Unknown(xs, key, known) <==> x in xs && key(x) !in known
  {
    if xs != [] {
      UnknownMembers(xs[1..], key, known);
      assert forall x :: x in xs <==> x == xs[0] || x in xs[1..];
    }
  }

  lemma UnknownKeys<T>(xs: seq<T>, key: T -> string, known: set<string>)
    ensures KeysOf(Unknown(xs, key, known), key) == KeysOf(xs, key) - known
  {
    UnknownMembers(xs, key, known);
    var left, right := KeysOf(Unknown(xs, key, known), key), KeysOf(xs, key) - known;
    forall k ensures k in left <==> k in right {
      if k in left {
        var x :| x in Unknown(xs, key, known) && key(x) == k;
        assert x in xs;
      }
      if k in right {
        var x :| x in xs && key(x) == k;
        assert x in Unknown(xs, key, known);
      }
    }
  }

  lemma KeysOfSum<T>(xs: seq<T>, ys: seq<T>, key: T -> string)
    ensures KeysOf(xs + ys, key) == KeysOf(xs, key) + KeysOf(ys, key)
  {
  }

  /** Keys of a merged list are the union; every parent entry stays where it was. */
  lemma MergeKeepsParent<T>(parent: seq<T>, child: seq<T>, key: T -> string)
    ensures KeysOf(MergeByKey(parent, child, key), key) == KeysOf(parent, key) + KeysOf(child, key)
    ensures parent <= MergeByKey(parent, child, key)
    ensures forall x :: x in MergeByKey(parent, child, key) <==>
              x in parent || (x in child && key(x) !in KeysOf(parent, key))
  {
    UnknownKeys(child, key, KeysOf(parent, key));
    UnknownMembers(child, key, KeysOf(parent, key));
    KeysOfSum(parent, Unknown(child, key, KeysOf(parent, key)), key);
  }

  lemma MergeByKeyAssociative<T>(g: seq<T>, p: seq<T>, c: seq<T>, key: T -> string)
    ensures MergeByKey(MergeByKey(g, p, key), c, key) == MergeByKey(g, MergeByKey(p, c, key), key)
  {
    var gk, pk := KeysOf(g, key), KeysOf(p, key);
    MergeKeepsParent(g, p, key);
    UnknownSplits(p, Unknown(c, key, pk), key, gk);
    UnknownTwice(c, key, pk, gk);
    assert gk + pk == pk + gk;
    assert g + Unknown(p, key, gk) + Unknown(c, key, gk + pk) ==
           g + (Unknown(p, key, gk) + Unknown(c, key, pk + gk));
  }

  ghost predicate DistinctKeys<T>(xs: seq<T>, key: T -> string) {
    forall i, j :: 0 <= i < j < |xs| ==> key(xs[i]) != key(xs[j])
  }

  /** One run of the append loop compares only with the parent: its result repeats no key exactly when the parent
      does not and what is new from the child does not by itself. */
  lemma MergeDistinctIff<T>(parent: seq<T>, child: seq<T>, key: T -> string)
    ensures DistinctKeys(MergeByKey(parent, child, key), key) <==>
            DistinctKeys(parent, key) && DistinctKeys(Unknown(child, key, KeysOf(parent, key)), key)
  {
    var added := Unknown(child, key, KeysOf(parent, key));
    var merged := parent + added;
    UnknownMembers(child, key, KeysOf(parent, key));
    assert forall i :: 0 <= i < |added| ==> added[i] in added && merged[|parent| + i] == added[i];
    if DistinctKeys(merged, key) {
      forall i, j | 0 <= i < j < |added| ensures key(added[i]) != key(added[j]) {
        assert key(merged[|parent| + i]) != key(merged[|parent| + j]);
      }
      forall i, j | 0 <= i < j < |parent| ensures key(parent[i]) != key(parent[j]) {
        assert merged[i] == parent[i] && merged[j] == parent[j];
      }
    }
    if DistinctKeys(parent, key) && DistinctKeys(added, key) {
      forall i, j | 0 <= i < j < |merged| ensures key(merged[i]) != key(merged[j]) {
        if i < |parent| <= j {
          assert merged[j] in added && merged[i] in parent;
        }
      }
    }
  }

  // ---------- The merge is an associative partial operation ----------

  lemma ClashOfMerge(g: UseCase, p: UseCase, c: UseCase)
    requires !Clash(g, p)
    ensures Clash(Merge(g, p), c) <==> Clash(g, c) || Clash(p, c)
  {
    assert forall s :: s in Merge(g, p).steps <==> s in g.steps || s in p.steps;
  }

  lemma ClashWithMerge(g: UseCase, p: UseCase, c: UseCase)
    requires !Clash(p, c)
    ensures Clash(g, Merge(p, c)) <==> Clash(g, p) || Clash(g, c)
  {
    assert forall s :: s in Merge(p, c).steps <==> s in p.steps || s in c.steps;
  }

  /** Both groupings of three levels are undefined together, and agree where defined. */
  lemma MergeAssociative(g: Option<UseCase>, p: Option<UseCase>, c: Option<UseCase>)
    ensures TryMerge(TryMerge(g, p), c) == TryMerge(g, TryMerge(p, c))
  {
    if g.Some? && p.Some? && c.Some? {
      var g', p', c' := g.value, p.value, c.value;
      if !Clash(g', p') { ClashOfMerge(g', p', c'); }
      if !Clash(p', c') { ClashWithMerge(g', p', c'); }
      if !Clash(g', p') && !Clash(p', c') && !Clash(g', c') {
        MergeByKeyAssociative(g'.requirements, p'.requirements, c'.requirements, RequirementKey);
        MergeByKeyAssociative(g'.invariants, p'.invariants, c'.invariants, InvariantKey);
        MergeByKeyAssociative(g'.preconditions, p'.preconditions, c'.preconditions, TextKey);
        MergeByKeyAssociative(g'.postconditions, p'.postconditions, c'.postconditions, TextKey);
        assert g'.steps + p'.steps + c'.steps == g'.steps + (p'.steps + c'.steps);
        assert g'.alternativeFlows + p'.alternativeFlows + c'.alternativeFlows ==
               g'.alternativeFlows + (p'.alternativeFlows + c'.alternativeFlows);
        assert g'.concurrency + p'.concurrency + c'.concurrency == g'.concurrency + (p'.concurrency + c'.concurrency);
        assert g'.inputFromEvent + p'.inputFromEvent + c'.inputFromEvent ==
               g'.inputFromEvent + (p'.inputFromEvent + c'.inputFromEvent);
      }
    }
  }

  /** Flattening agrees wherever the chain of levels is cut in two. */
  lemma {:induction false} FlattenSplits(leafPart: seq<UseCase>, rootPart: seq<UseCase>)
    requires leafPart != [] && rootPart != []
    ensures Flatten(leafPart + rootPart) == TryMerge(Flatten(rootPart), Flatten(leafPart))
  {
    var w := leafPart + rootPart;
    if |leafPart| == 1 {
      assert w[1..] == rootPart;
    } else {
      assert w[1..] == leafPart[1..] + rootPart;
      FlattenSplits(leafPart[1..], rootPart);
      MergeAssociative(Flatten(rootPart), Flatten(leafPart[1..]), Some(leafPart[0]));
    }
  }

  // ---------- What a flattened use case contains ----------

  /** The entries of all levels, root first. */
  function FromRoot<T>(levels: seq<UseCase>, list: UseCase -> seq<T>): seq<T> {
    if levels == [] then [] else FromRoot(levels[1..], list) + list(levels[0])
  }

  function StepsOf(uc: UseCase): seq<Step> { uc.steps }
  function FlowsOf(uc: UseCase): seq<string> { uc.alternativeFlows }
  function ConcurrencyOf(uc: UseCase): seq<string> { uc.concurrency }

  function StepsFromRoot(levels: seq<UseCase>): seq<Step> { FromRoot(levels, StepsOf) }

  lemma {:induction false} FlattenSteps(w: seq<UseCase>)
    requires w != [] && Flatten(w).Some?
    ensures Flatten(w).value.steps == StepsFromRoot(w)
    ensures Flatten(w).value.alternativeFlows == FromRoot(w, FlowsOf)
    ensures Flatten(w).value.concurrency == FromRoot(w, ConcurrencyOf)
    ensures |w| > 1 ==> Flatten(w[1..]).Some?
  {
    if |w| > 1 {
      FlattenSteps(w[1..]);
    } else {
      assert FromRoot(w[1..], StepsOf) == [] && FromRoot(w[1..], FlowsOf) == FromRoot(w[1..], ConcurrencyOf) == [];
    }
  }

  predicate HasTrigger(uc: UseCase) { uc.trigger.Some? && uc.trigger.value != "" }

  predicate FirstWith(w: seq<UseCase>, i: nat, key: string)
    requires i < |w|
  {
    forall j :: 0 <= j < i ==> key !in w[j].inputFromEvent
  }

  predicate NoTriggerBelow(w: seq<UseCase>, i: nat)
    requires i <= |w|
  {
    forall j :: 0 <= j < i ==> !HasTrigger(w[j])
  }

  /** The level nearest to the leaf decides a trigger, and each entry of the event map. */
  ghost predicate TriggerOfNearest(w: seq<UseCase>, flat: UseCase) {
    && (forall i | 0 <= i < |w| && HasTrigger(w[i]) && NoTriggerBelow(w, i) :: flat.trigger == w[i].trigger)
    && (NoTriggerBelow(w, |w|) ==> !HasTrigger(flat))
  }

  ghost predicate EventsOfNearest(w: seq<UseCase>, flat: UseCase) {
    && (forall key :: key in flat.inputFromEvent <==> exists i :: 0 <= i < |w| && key in w[i].inputFromEvent)
    && (forall i, key | 0 <= i < |w| && key in w[i].inputFromEvent && FirstWith(w, i, key) ::
          key in flat.inputFromEvent && flat.inputFromEvent[key] == w[i].inputFromEvent[key])
  }

  ghost predicate ChildWins(w: seq<UseCase>, flat: UseCase) {
    TriggerOfNearest(w, flat) && EventsOfNearest(w, flat)
  }

  lemma {:induction false} FlattenChildWins(w: seq<UseCase>)
    requires w != [] && Flatten(w).Some?
    ensures ChildWins(w, Flatten(w).value)
  {
    if |w| > 1 {
      FlattenChildWins(w[1..]);
      TriggerStep(w, Flatten(w[1..]).value, Flatten(w).value);
      EventsStep(w, Flatten(w[1..]).value, Flatten(w).value);
    }
  }

  lemma TriggerStep(w: seq<UseCase>, p: UseCase, flat: UseCase)
    requires |w| > 1 && TriggerOfNearest(w[1..], p) && flat.trigger == OrElse(w[0].trigger, p.trigger)
    ensures TriggerOfNearest(w, flat)
  {
    var up := w[1..];
    forall i | 0 <= i < |w| && HasTrigger(w[i]) && NoTriggerBelow(w, i) ensures flat.trigger == w[i].trigger {
      if i > 0 {
        assert forall j :: 0 <= j < i - 1 ==> up[j] == w[j + 1];
        assert NoTriggerBelow(up, i - 1) && HasTrigger(up[i - 1]);
      }
    }
    if NoTriggerBelow(w, |w|) {
      assert forall i :: 0 <= i < |up| ==> up[i] == w[i + 1];
      assert NoTriggerBelow(up, |up|);
    }
  }

  lemma EventsStep(w: seq<UseCase>, p: UseCase, flat: UseCase)
    requires |w| > 1 && EventsOfNearest(w[1..], p) && flat.inputFromEvent == p.inputFromEvent + w[0].inputFromEvent
    ensures EventsOfNearest(w, flat)
  {
    var up := w[1..];
    forall key ensures key in flat.inputFromEvent <==> exists i :: 0 <= i < |w| && key in w[i].inputFromEvent {
      if key in p.inputFromEvent {
        var i :| 0 <= i < |up| && key in up[i].inputFromEvent;
        assert key in w[i + 1].inputFromEvent;
      }
      if i :| 0 <= i < |w| && key in w[i].inputFromEvent {
        if i > 0 { assert key in up[i - 1].inputFromEvent; }
      }
    }
    forall i, key | 0 <= i < |w| && key in w[i].inputFromEvent && FirstWith(w, i, key)
      ensures key in flat.inputFromEvent && flat.inputFromEvent[key] == w[i].inputFromEvent[key]
    {
      if i > 0 {
        assert forall j :: 0 <= j < i - 1 ==> up[j] == w[j + 1];
        assert key in up[i - 1].inputFromEvent && FirstWith(up, i - 1, key);
      }
    }
  }

  /** The keyed lists of every suffix of the chain, flattened on its own, are prefixes of the final lists:
      no entry of an ancestor is ever displaced or replaced by one below it. */
  lemma {:induction false} AncestorsComeFirst(w: seq<UseCase>, k: nat)
    requires k < |w| && Flatten(w).Some?
    ensures Flatten(w[k..]).Some?
    ensures Flatten(w[k..]).value.requirements <= Flatten(w).value.requirements
    ensures Flatten(w[k..]).value.invariants <= Flatten(w).value.invariants
    ensures Flatten(w[k..]).value.preconditions <= Flatten(w).value.preconditions
    ensures Flatten(w[k..]).value.postconditions <= Flatten(w).value.postconditions
  {
    if k == 0 {
      assert w[0..] == w;
    } else {
      AncestorsComeFirst(w[1..], k - 1);
      assert w[1..][k - 1..] == w[k..];
    }
  }

  function RequirementKeys(uc: UseCase): set<string> { KeysOf(uc.requirements, RequirementKey) }
  function InvariantKeys(uc: UseCase): set<string> { KeysOf(uc.invariants, InvariantKey) }
  function PreconditionKeys(uc: UseCase): set<string> { KeysOf(uc.preconditions, TextKey) }
  function PostconditionKeys(uc: UseCase): set<string> { KeysOf(uc.postconditions, TextKey) }

  function UnionOver(w: seq<UseCase>, keys: UseCase -> set<string>): set<string> {
    if w == [] then {} else keys(w[0]) + UnionOver(w[1..], keys)
  }

  /** The keys of each keyed list are the union of those of all levels. */
  ghost predicate KeysAreUnion(w: seq<UseCase>, flat: UseCase) {
    && RequirementKeys(flat) == UnionOver(w, RequirementKeys)
    && InvariantKeys(flat) == UnionOver(w, InvariantKeys)
    && PreconditionKeys(flat) == UnionOver(w, PreconditionKeys)
    && PostconditionKeys(flat) == UnionOver(w, PostconditionKeys)
  }

  lemma {:induction false} FlattenKeys(w: seq<UseCase>)
    requires w != [] && Flatten(w).Some?
    ensures KeysAreUnion(w, Flatten(w).value)
  {
    if |w| > 1 {
      FlattenKeys(w[1..]);
      var p := Flatten(w[1..]).value;
      MergeKeepsParent(p.requirements, w[0].requirements, RequirementKey);
      MergeKeepsParent(p.invariants, w[0].invariants, InvariantKey);
      MergeKeepsParent(p.preconditions, w[0].preconditions, TextKey);
      MergeKeepsParent(p.postconditions, w[0].postconditions, TextKey);
    } else {
      assert UnionOver(w[1..], RequirementKeys) == UnionOver(w[1..], InvariantKeys) ==
             UnionOver(w[1..], PreconditionKeys) == UnionOver(w[1..], PostconditionKeys) == {};
    }
  }

  function RequirementsOf(uc: UseCase): seq<Requirement> { uc.requirements }
  function InvariantsOf(uc: UseCase): seq<InvariantBinding> { uc.invariants }
  function PreconditionsOf(uc: UseCase): seq<string> { uc.preconditions }
  function PostconditionsOf(uc: UseCase): seq<string> { uc.postconditions }

  /** No level repeats a key among those that no ancestor has. */
  ghost predicate NoLevelRepeats<T>(w: seq<UseCase>, list: UseCase -> seq<T>, key: T -> string, keys: UseCase -> set<string>) {
    forall i :: 0 <= i < |w| ==> AddsDistinct(w, i, list, key, keys)
  }

  ghost predicate AddsDistinct<T>(w: seq<UseCase>, i: nat, list: UseCase -> seq<T>, key: T -> string, keys: UseCase -> set<string>)
    requires i < |w|
  {
    DistinctKeys(Unknown(list(w[i]), key, UnionOver(w[i + 1..], keys)), key)
  }

  lemma RepeatsStep<T>(w: seq<UseCase>, list: UseCase -> seq<T>, key: T -> string, keys: UseCase -> set<string>)
    requires w != []
    ensures NoLevelRepeats(w, list, key, keys) <==> NoLevelRepeats(w[1..], list, key, keys) && AddsDistinct(w, 0, list, key, keys)
  {
    hide DistinctKeys, Unknown, UnionOver;
    forall i | 0 <= i < |w| - 1 ensures AddsDistinct(w[1..], i, list, key, keys) <==> AddsDistinct(w, i + 1, list, key, keys) {
      assert w[1..][i + 1..] == w[i + 2..];
    }
    if NoLevelRepeats(w[1..], list, key, keys) && AddsDistinct(w, 0, list, key, keys) {
      forall i | 0 <= i < |w| ensures AddsDistinct(w, i, list, key, keys) {
        if i > 0 { assert AddsDistinct(w[1..], i - 1, list, key, keys); }
      }
    }
    if NoLevelRepeats(w, list, key, keys) {
      forall i | 0 <= i < |w| - 1 ensures AddsDistinct(w[1..], i, list, key, keys) {
        assert AddsDistinct(w, i + 1, list, key, keys);
      }
    }
  }

  lemma {:induction false} UnknownOfNone<T>(xs: seq<T>, key: T -> string)
    ensures Unknown(xs, key, {}) == xs
  {
    if xs != [] {
      UnknownOfNone(xs[1..], key);
      assert xs == [xs[0]] + xs[1..];
    }
  }

  /** A single level, as the base of the chain. */
  lemma RootRepeats<T>(w: seq<UseCase>, list: UseCase -> seq<T>, key: T -> string, keys: UseCase -> set<string>)
    requires |w| == 1
    ensures NoLevelRepeats(w, list, key, keys) <==> DistinctKeys(list(w[0]), key)
  {
    hide DistinctKeys;
    assert w[1..] == [];
    UnknownOfNone(list(w[0]), key);
    assert AddsDistinct(w, 0, list, key, keys) <==> DistinctKeys(list(w[0]), key);
  }

  /** When a list of the flattened use case has no duplicate. */
  ghost predicate DistinctWhenLevelsAre(w: seq<UseCase>, flat: UseCase) {
    && (DistinctKeys(flat.requirements, RequirementKey) <==> NoLevelRepeats(w, RequirementsOf, RequirementKey, RequirementKeys))
    && (DistinctKeys(flat.invariants, InvariantKey) <==> NoLevelRepeats(w, InvariantsOf, InvariantKey, InvariantKeys))
    && (DistinctKeys(flat.preconditions, TextKey) <==> NoLevelRepeats(w, PreconditionsOf, TextKey, PreconditionKeys))
    && (DistinctKeys(flat.postconditions, TextKey) <==> NoLevelRepeats(w, PostconditionsOf, TextKey, PostconditionKeys))
  }

  /** `specs/actions/resolve-uc-extends.yaml` asks for requirements and invariants without duplicates. The flattened
      lists have none exactly when no level repeats a key that is new at that level. */
  lemma {:induction false} FlattenDistinctIff(w: seq<UseCase>)
    requires w != [] && Flatten(w).Some?
    ensures DistinctWhenLevelsAre(w, Flatten(w).value)
  {
    hide DistinctKeys, NoLevelRepeats, Unknown, UnionOver;
    if |w| == 1 {
      RootRepeats(w, RequirementsOf, RequirementKey, RequirementKeys);
      RootRepeats(w, InvariantsOf, InvariantKey, InvariantKeys);
      RootRepeats(w, PreconditionsOf, TextKey, PreconditionKeys);
      RootRepeats(w, PostconditionsOf, TextKey, PostconditionKeys);
    } else {
      FlattenDistinctIff(w[1..]);
      FlattenKeys(w[1..]);
      var p := Flatten(w[1..]).value;
      RepeatsStep(w, RequirementsOf, RequirementKey, RequirementKeys);
      RepeatsStep(w, InvariantsOf, InvariantKey, InvariantKeys);
      RepeatsStep(w, PreconditionsOf, TextKey, PreconditionKeys);
      RepeatsStep(w, PostconditionsOf, TextKey, PostconditionKeys);
      MergeDistinctIff(p.requirements, w[0].requirements, RequirementKey);
      MergeDistinctIff(p.invariants, w[0].invariants, InvariantKey);
      MergeDistinctIff(p.preconditions, w[0].preconditions, TextKey);
      MergeDistinctIff(p.postconditions, w[0].postconditions, TextKey);
    }
  }

  ghost predicate UniqueIds(steps: seq<Step>) {
    forall i, j :: 0 <= i < j < |steps| ==> steps[i].id != steps[j].id
  }

  /** Ids of the flattened steps are unique exactly when those of each level are: the clash check compares
      levels with each other and never a level with itself. */
  lemma {:induction false} FlattenedIdsUniqueIff(w: seq<UseCase>)
    requires w != [] && Flatten(w).Some?
    ensures UniqueIds(Flatten(w).value.steps) <==> forall i :: 0 <= i < |w| ==> UniqueIds(w[i].steps)
  {
    if |w| > 1 {
      FlattenedIdsUniqueIff(w[1..]);
      var p, c := Flatten(w[1..]).value.steps, w[0].steps;
      UniqueIdsOfSum(p, c);
      assert forall i :: 0 < i < |w| ==> w[i] == w[1..][i - 1];
      assert forall i :: 0 <= i < |w[1..]| ==> w[1..][i] == w[i + 1];
    }
  }

  lemma UniqueIdsOfSum(p: seq<Step>, c: seq<Step>)
    requires forall a, b :: a in p && b in c ==> a.id != b.id
    ensures UniqueIds(p + c) <==> UniqueIds(p) && UniqueIds(c)
  {
    var s := p + c;
    if UniqueIds(s) {
      forall i, j | 0 <= i < j < |c| ensures c[i].id != c[j].id {
        assert s[|p| + i] == c[i] && s[|p| + j] == c[j];
      }
      forall i, j | 0 <= i < j < |p| ensures p[i].id != p[j].id {
        assert s[i] == p[i] && s[j] == p[j];
      }
    }
  }

  // ---------- Main results about resolution ----------

  /** The levels of a successful resolution, leaf first. */
  ghost predicate IsLevels(reg: Registry, uc: UseCase, w: seq<UseCase>) {
    && w != [] && RootAt(reg, uc, |w| - 1)
    && forall i {:trigger w[i]} :: 0 <= i < |w| ==> Ancestor(reg, uc, i) == Some(w[i])
  }

  /** A walk that ends, with distinct names, resolves to the merge of its levels. */
  lemma ResolveByLevels(reg: Registry, uc: UseCase)
    ensures Levels(reg, uc, [uc.Name()]).Ok? ==>
      var w := Levels(reg, uc, [uc.Name()]).value;
      IsLevels(reg, uc, w) && Distinct([uc.Name()] + Names(w[1..])) && |w| > 0 &&
      match Flatten(w)
      case None => Resolve(reg, uc, [uc.Name()]) == Err(StepIdClash)
      case Some(flat) =>
        Resolve(reg, uc, [uc.Name()]) == Ok(Resolution(flat, [uc.Name()] + Names(w[1..]),
          if |w| == 1 then [] else StepIds(Flatten(w[1..]).value.steps)))
    ensures Resolve(reg, uc, [uc.Name()]).Ok? ==> Levels(reg, uc, [uc.Name()]).Ok?
  {
    assert Ancestor(reg, uc, 0) == Some(uc);
    DescentFollowsWalk(reg, uc, 0, [uc.Name()]);
    ResolveIsDescentThenMerge(reg, uc, [uc.Name()]);
    if Levels(reg, uc, [uc.Name()]).Ok? {
      var w := Levels(reg, uc, [uc.Name()]).value;
      assert forall i {:trigger w[i]} :: 0 <= i < |w| ==> Ancestor(reg, uc, 0 + i) == Some(w[i]);
      assert |w| == 1 ==> w[1..] == [] && [uc.Name()] + Names(w[1..]) == [uc.Name()];
    }
  }

  /** What a successful resolution returns, in terms of the levels of its walk. */
  ghost predicate ContentsOf(r: Resolution, uc: UseCase, w: seq<UseCase>) {
    && r.flattened.steps == StepsFromRoot(w)
    && r.parentStepIds + StepIds(uc.steps) == StepIds(r.flattened.steps)
    && (UniqueIds(r.flattened.steps) <==> forall i :: 0 <= i < |w| ==> UniqueIds(w[i].steps))
    && KeysAreUnion(w, r.flattened) && DistinctWhenLevelsAre(w, r.flattened)
    && r.flattened.alternativeFlows == FromRoot(w, FlowsOf)
    && r.flattened.concurrency == FromRoot(w, ConcurrencyOf)
    && ChildWins(w, r.flattened)
    && (if |w| == 1 then r.flattened == uc
        else r.flattened.parentRef.None? && r.flattened.assumedPreconditions == [] && !r.flattened.terminal)
    && r.chain == Names(w)
    && r.flattened.metadata == uc.metadata
  }

  lemma ContentsFromLevels(uc: UseCase, w: seq<UseCase>, r: Resolution)
    requires w != [] && w[0] == uc && Flatten(w) == Some(r.flattened)
    requires |w| > 1 ==> Flatten(w[1..]).Some? && r.parentStepIds == StepIds(Flatten(w[1..]).value.steps)
    requires |w| == 1 ==> r.parentStepIds == []
    requires r.chain == [uc.Name()] + Names(w[1..])
    ensures ContentsOf(r, uc, w)
  {
    var flat := Flatten(w).value;
    FlattenSteps(w);
    if |w| > 1 { FlattenSteps(w[1..]); }
    hide DistinctWhenLevelsAre;
    FlattenKeys(w);
    FlattenDistinctIff(w);
    FlattenedIdsUniqueIff(w);
    FlattenChildWins(w);
    InheritedIds(w);
    assert Names(w) == [w[0].Name()] + Names(w[1..]);
    assert flat.metadata == uc.metadata;
  }

  lemma InheritedIds(w: seq<UseCase>)
    requires w != []
    ensures StepIds(StepsFromRoot(w[1..])) + StepIds(w[0].steps) == StepIds(StepsFromRoot(w))
    ensures |w| == 1 ==> StepsFromRoot(w[1..]) == []
  {
    StepIdsOfSum(StepsFromRoot(w[1..]), w[0].steps);
  }

  lemma StepIdsOfSum(a: seq<Step>, b: seq<Step>)
    ensures StepIds(a) + StepIds(b) == StepIds(a + b)
  {
  }

  lemma FlattenedContents(reg: Registry, uc: UseCase) returns (w: seq<UseCase>)
    requires Resolve(reg, uc, [uc.Name()]).Ok?
    ensures IsLevels(reg, uc, w) && ContentsOf(Resolve(reg, uc, [uc.Name()]).value, uc, w)
  {
    ResolveByLevels(reg, uc);
    w := Levels(reg, uc, [uc.Name()]).value;
    assert w[0] == uc by { assert Ancestor(reg, uc, 0) == Some(w[0]); }
    if |w| > 1 { FlattenSteps(w); }
    ContentsFromLevels(uc, w, Resolve(reg, uc, [uc.Name()]).value);
  }

  lemma WellKeyedUnique(reg: Registry)
    requires WellKeyed(reg)
    ensures UniqueNames(reg)
  {
  }

  /** In a registry filled by `register`, the outcome for a registered use case is decided by its walk alone. */
  lemma RegisteredIsDecided(reg: Registry, uc: UseCase)
    requires WellKeyed(reg) && uc in UseCases(reg)
    ensures var r := Resolve(reg, uc, [uc.Name()]);
      && (r == Err(CircularExtends) <==> NeverEnds(reg, uc))
      && (r == Err(ParentNotFound) <==> Breaks(reg, uc))
      && (r == Err(StepIdClash) <==> Ends(reg, uc, true))
      && (r.Ok? <==> Ends(reg, uc, false))
  {
    hide Resolve, NeverEnds, Breaks, Ends;
    WellKeyedUnique(reg);
    OutcomeDecided(reg, uc);
  }

  // ---------- The order of the chain ----------

  lemma {:induction false} LeafIsLast(w: seq<UseCase>)
    requires w != []
    ensures |FromRoot(w, NameOf)| == |w| && FromRoot(w, NameOf)[|w| - 1] == w[0].Name()
  {
    if |w| > 1 { LeafIsLast(w[1..]); }
  }

  function NameOf(uc: UseCase): seq<string> { [uc.Name()] }

  /** `specs/actions/resolve-uc-extends.yaml` lists the chain from root to child; what is returned is the names from
      child to root, which is that list only for a use case without a parent. */
  lemma ChainIsFromLeaf(reg: Registry, uc: UseCase) returns (w: seq<UseCase>)
    requires Resolve(reg, uc, [uc.Name()]).Ok?
    ensures IsLevels(reg, uc, w) && Resolve(reg, uc, [uc.Name()]).value.chain == Names(w)
    ensures Names(w) == FromRoot(w, NameOf) <==> uc.parentRef.None?
  {
    hide Resolve, ContentsOf, Ancestor, ParentOf;
    ResolveByLevels(reg, uc);
    w := Levels(reg, uc, [uc.Name()]).value;
    NamesAt(w, 0);
    LeafIsLast(w);
    LevelsStart(reg, uc, w);
    if |w| == 1 {
      assert w[1..] == [];
    } else {
      NamesAt(w, |w| - 1);
      var chain := [uc.Name()] + Names(w[1..]);
      assert chain[|w| - 1] == Names(w)[|w| - 1];
      assert chain[0] != chain[|w| - 1];
    }
  }

  lemma LevelsStart(reg: Registry, uc: UseCase, w: seq<UseCase>)
    requires IsLevels(reg, uc, w)
    ensures w[0] == uc && (|w| == 1 <==> uc.parentRef.None?)
  {
    assert Ancestor(reg, uc, 0) == Some(w[0]);
    assert |w| > 1 ==> Ancestor(reg, uc, 1) == Some(w[1]);
  }

  // ---------- Replacing an ancestor by its flattened form ----------

  lemma {:induction false} NamesAt(w: seq<UseCase>, i: nat)
    requires i < |w|
    ensures |Names(w)| == |w| && Names(w)[i] == w[i].Name()
  {
    if i > 0 { NamesAt(w[1..], i - 1); }
    else if |w| > 1 { NamesAt(w[1..], 0); }
  }

  ghost function Replaced(reg: Registry, flat: UseCase): Registry {
    reg[RefKey(UseCaseSpec(flat)) := UseCaseSpec(flat)]
  }

  /** Only references to the replaced use case resolve differently. */
  lemma ParentAfterReplacement(reg: Registry, uc: UseCase, flat: UseCase)
    requires WellKeyed(reg) && RefKey(UseCaseSpec(flat)) in reg && ParentOf(reg, uc).Some?
    ensures ParentOf(Replaced(reg, flat), uc) ==
            Some(if ParentOf(reg, uc).value.Name() == flat.Name() then flat else ParentOf(reg, uc).value)
  {
    var key := RefKey(UseCaseSpec(flat));
    assert "use-cases/" == key[..10];
    assert ("use-cases/" + ParentOf(reg, uc).value.Name())[10..] == ParentOf(reg, uc).value.Name();
    assert key[10..] == flat.Name();
  }

  ghost predicate StepsTo(reg: Registry, w: seq<UseCase>, j: nat)
    requires j + 1 < |w|
  {
    w[j].parentRef.Some? && ParentOf(reg, w[j]) == Some(w[j + 1])
  }

  /** The descent with the replaced registry follows the same levels up to the replaced one. */
  lemma {:induction false} DescentAfterReplacement(reg: Registry, w: seq<UseCase>, flat: UseCase, i: nat, k: nat)
    requires WellKeyed(reg) && RefKey(UseCaseSpec(flat)) in reg
    requires i <= k < |w| && 0 < k && Distinct(Names(w)) && |Names(w)| == |w|
    requires forall j :: 0 <= j < k ==> StepsTo(reg, w, j)
    requires flat.Name() == w[k].Name() && flat.parentRef.None?
    ensures var reg' := Replaced(reg, flat);
      Levels(reg', if i == k then flat else w[i], Names(w)[..i + 1]) == Ok(w[i..k] + [flat])
    decreases k - i
  {
    hide Levels, ParentOf, Distinct, Names, RefKey, WellKeyed, Replaced;
    if i < k {
      DescentAfterReplacement(reg, w, flat, i + 1, k);
      assert StepsTo(reg, w, i);
      ParentAfterReplacement(reg, w[i], flat);
      var parent := if i + 1 == k then flat else w[i + 1];
      FreshName(w, flat, i, k);
      DescendOnce(Replaced(reg, flat), w[i], Names(w)[..i + 1], parent);
      assert [w[i]] + (w[i + 1..k] + [flat]) == w[i..k] + [flat];
    } else {
      assert w[i..k] + [flat] == [flat];
      RootAlone(Replaced(reg, flat), flat, Names(w)[..i + 1]);
    }
  }

  lemma RootAlone(reg: Registry, root: UseCase, chain: seq<string>)
    requires root.parentRef.None?
    ensures Levels(reg, root, chain) == Ok([root])
  {
  }

  lemma FreshName(w: seq<UseCase>, flat: UseCase, i: nat, k: nat)
    requires i < k < |w| && Distinct(Names(w)) && |Names(w)| == |w| && flat.Name() == w[k].Name()
    ensures var parent := if i + 1 == k then flat else w[i + 1];
      parent.Name() !in Names(w)[..i + 1] && Names(w)[..i + 1] + [parent.Name()] == Names(w)[..i + 2]
    ensures w[i + 1].Name() == flat.Name() <==> i + 1 == k
  {
    NamesAt(w, i + 1);
    NamesAt(w, k);
  }

  lemma DescendOnce(reg: Registry, uc: UseCase, chain: seq<string>, parent: UseCase)
    requires uc.parentRef.Some? && ParentOf(reg, uc) == Some(parent) && parent.Name() !in chain
    requires Levels(reg, parent, chain + [parent.Name()]).Ok?
    ensures Levels(reg, uc, chain) == Ok([uc] + Levels(reg, parent, chain + [parent.Name()]).value)
  {
  }

  /** Putting an ancestor's own flattened form in its place changes neither the flattened use case, nor the
      inherited step ids, nor the error; only the chain gets shorter. */
  lemma ReplaceAncestor(reg: Registry, uc: UseCase, k: nat)
    requires WellKeyed(reg) && Coherent(reg, uc)
    requires 0 < k && Ancestor(reg, uc, k).Some?
    requires Resolve(reg, Ancestor(reg, uc, k).value, [Ancestor(reg, uc, k).value.Name()]).Ok?
    ensures var a := Ancestor(reg, uc, k).value;
      var reg' := Replaced(reg, Resolve(reg, a, [a.Name()]).value.flattened);
      match (Resolve(reg, uc, [uc.Name()]), Resolve(reg', uc, [uc.Name()]))
      case (Ok(r), Ok(r')) =>
        r'.flattened == r.flattened && r'.parentStepIds == r.parentStepIds &&
        k < |r.chain| && r'.chain == r.chain[..k + 1]
      case (Err(e), Err(e')) => e == e'
      case _ => false
  {
    var a := Ancestor(reg, uc, k).value;
    var flat := Resolve(reg, a, [a.Name()]).value.flattened;
    var w := LevelsThrough(reg, uc, k);
    var w' := w[..k] + [flat];
    var chain := [uc.Name()];
    forall j | 0 <= j < k ensures StepsTo(reg, w, j) {
      assert Ancestor(reg, uc, j) == Some(w[j]) && Ancestor(reg, uc, j + 1) == Some(w[j + 1]);
    }
    NamesAt(w, 0);
    NamesAt(w, k);
    FlattenedIsRoot(reg, uc, k);
    assert Ancestor(reg, uc, k) == Some(w[k]) && Ancestor(reg, uc, 0) == Some(w[0]);
    DescentAfterReplacement(reg, w, flat, 0, k);
    assert Names(w)[..1] == chain && w[0..k] == w[..k];
    assert Levels(Replaced(reg, flat), uc, chain) == Ok(w');
    ResolveIsDescentThenMerge(Replaced(reg, flat), uc, chain);
    ResolveByLevels(reg, uc);
    SameMerge(w, flat, k);
    NamesOfPrefix(w, flat, k);
    assert chain + Names(w'[1..]) == Names(w') && chain + Names(w[1..]) == Names(w);
  }

  lemma EndingWalkDescends(reg: Registry, uc: UseCase, n: nat)
    requires Coherent(reg, uc) && RootAt(reg, uc, n)
    ensures Levels(reg, uc, [uc.Name()]).Ok?
  {
    assert EndsAt(reg, uc, n, LevelsClash(reg, uc, n));
    OutcomeDecided(reg, uc);
    assert Resolve(reg, uc, [uc.Name()]).Ok? || Resolve(reg, uc, [uc.Name()]) == Err(StepIdClash);
    ResolveIsDescentThenMerge(reg, uc, [uc.Name()]);
  }

  lemma LevelsReachRoot(reg: Registry, uc: UseCase, n: nat, w: seq<UseCase>)
    requires RootAt(reg, uc, n) && IsLevels(reg, uc, w)
    ensures |w| == n + 1 && w[0] == uc
  {
    assert Ancestor(reg, uc, 0) == Some(w[0]);
    if |w| - 1 < n { WalkStops(reg, uc, |w| - 1, n); }
    else if n < |w| - 1 { WalkStops(reg, uc, n, |w| - 1); }
  }

  /** A coherent walk with a root is followed to that root. */
  lemma LevelsOfEndingWalk(reg: Registry, uc: UseCase, n: nat) returns (w: seq<UseCase>)
    requires Coherent(reg, uc) && RootAt(reg, uc, n)
    ensures Levels(reg, uc, [uc.Name()]) == Ok(w) && IsLevels(reg, uc, w) && |w| == n + 1
    ensures Names(w) == [uc.Name()] + Names(w[1..]) && Distinct(Names(w))
  {
    EndingWalkDescends(reg, uc, n);
    ResolveByLevels(reg, uc);
    w := Levels(reg, uc, [uc.Name()]).value;
    LevelsReachRoot(reg, uc, n, w);
  }

  /** The levels of `uc`, when its ancestor at `k` resolves. */
  lemma LevelsThrough(reg: Registry, uc: UseCase, k: nat) returns (w: seq<UseCase>)
    requires WellKeyed(reg) && Coherent(reg, uc)
    requires 0 < k && Ancestor(reg, uc, k).Some?
    requires Resolve(reg, Ancestor(reg, uc, k).value, [Ancestor(reg, uc, k).value.Name()]).Ok?
    ensures Levels(reg, uc, [uc.Name()]) == Ok(w) && IsLevels(reg, uc, w) && k < |w|
    ensures Names(w) == [uc.Name()] + Names(w[1..]) && Distinct(Names(w))
    ensures var a := Ancestor(reg, uc, k).value;
      Flatten(w[k..]) == Some(Resolve(reg, a, [a.Name()]).value.flattened)
  {
    hide Flatten, Levels, Resolve, Names, Distinct;
    var a := Ancestor(reg, uc, k).value;
    var v := LevelsOfResolved(reg, a);
    RootSeenFrom(reg, uc, k, a, |v| - 1);
    w := LevelsOfEndingWalk(reg, uc, k + (|v| - 1));
    SuffixLevels(reg, uc, k, w, v);
  }

  lemma RootSeenFrom(reg: Registry, uc: UseCase, k: nat, a: UseCase, n: nat)
    requires Ancestor(reg, uc, k) == Some(a) && RootAt(reg, a, n)
    ensures RootAt(reg, uc, k + n)
  {
    AncestorAdds(reg, uc, k, n);
  }

  lemma LevelsOfResolved(reg: Registry, uc: UseCase) returns (v: seq<UseCase>)
    requires Resolve(reg, uc, [uc.Name()]).Ok?
    ensures IsLevels(reg, uc, v) && Flatten(v) == Some(Resolve(reg, uc, [uc.Name()]).value.flattened)
  {
    ResolveByLevels(reg, uc);
    v := Levels(reg, uc, [uc.Name()]).value;
  }

  lemma SuffixLevels(reg: Registry, uc: UseCase, k: nat, w: seq<UseCase>, v: seq<UseCase>)
    requires IsLevels(reg, uc, w) && Ancestor(reg, uc, k).Some? && |w| == k + |v|
    requires IsLevels(reg, Ancestor(reg, uc, k).value, v)
    ensures w[k..] == v
  {
    forall i | 0 <= i < |v| ensures w[k + i] == v[i] {
      AncestorAdds(reg, uc, k, i);
      assert Ancestor(reg, uc, k + i) == Some(w[k + i]);
    }
  }

  /** A flattened use case keeps its name and has no parent left. */
  lemma FlattenedIsRoot(reg: Registry, uc: UseCase, k: nat)
    requires WellKeyed(reg) && 0 < k && Ancestor(reg, uc, k).Some?
    requires Resolve(reg, Ancestor(reg, uc, k).value, [Ancestor(reg, uc, k).value.Name()]).Ok?
    ensures var a := Ancestor(reg, uc, k).value;
      var flat := Resolve(reg, a, [a.Name()]).value.flattened;
      flat.Name() == a.Name() && flat.parentRef.None? && RefKey(UseCaseSpec(flat)) in reg
  {
    EarlierAncestor(reg, uc, k, k);
  }

  lemma FlattenOne(uc: UseCase)
    ensures Flatten([uc]) == Some(uc)
  {
  }

  lemma SameMerge(w: seq<UseCase>, flat: UseCase, k: nat)
    requires 0 < k < |w| && Flatten(w[k..]) == Some(flat)
    ensures Flatten(w[..k] + [flat]) == Flatten(w)
    ensures Flatten((w[..k] + [flat])[1..]) == Flatten(w[1..])
  {
    hide *;
    FlattenOne(flat);
    SameMergeOf(w[..k], w[k..], flat);
    assert w == w[..k] + w[k..];
    if k == 1 {
      assert (w[..k] + [flat])[1..] == [flat];
    } else {
      SameMergeOf(w[1..k], w[k..], flat);
      assert w[1..] == w[1..k] + w[k..] && (w[..k] + [flat])[1..] == w[1..k] + [flat];
    }
  }

  lemma SameMergeOf(leafPart: seq<UseCase>, rootPart: seq<UseCase>, flat: UseCase)
    requires leafPart != [] && rootPart != [] && Flatten(rootPart) == Some(flat)
    ensures Flatten(leafPart + [flat]) == Flatten(leafPart + rootPart)
  {
    hide *;
    FlattenOne(flat);
    FlattenSplits(leafPart, rootPart);
    FlattenSplits(leafPart, [flat]);
  }

  lemma NamesOfPrefix(w: seq<UseCase>, flat: UseCase, k: nat)
    requires 0 < k < |w| && flat.Name() == w[k].Name()
    ensures |Names(w)| == |w| && Names(w[..k] + [flat]) == Names(w)[..k + 1]
  {
    var w' := w[..k] + [flat];
    NamesAt(w, 0);
    NamesAt(w', 0);
    forall i | 0 <= i <= k ensures Names(w')[i] == Names(w)[i] {
      NamesAt(w, i);
      NamesAt(w', i);
    }
  }

  // ---------- A walk that ends but is called circular ----------

  function Bare(name: string, parentRef: Option<string>): UseCase {
    UseCase(Metadata(name, ""), parentRef, None, map[], [], [], [], [], [], [], false, [], [])
  }

  const ROOT_A: UseCase := Bare("a", None)
  const MIDDLE_B: UseCase := Bare("b", Some("use-cases/a"))
  const NAMESAKE_A: UseCase := Bare("a", Some("use-cases/b"))
  const TWO_USE_CASES: Registry := map["use-cases/a" := UseCaseSpec(ROOT_A), "use-cases/b" := UseCaseSpec(MIDDLE_B)]

  lemma ResolvesDirectly(reg: Registry, uc: UseCase, parent: UseCase, key: string)
    requires uc.parentRef == Some(key) && '$' !in key && key in reg && reg[key] == UseCaseSpec(parent)
    ensures ParentOf(reg, uc) == Some(parent)
  {
    NoPrefixToStrip(key);
  }

  /** An unregistered use case that bears the name of its grandparent: its walk ends, yet it is refused. */
  lemma UnregisteredNamesake()
    ensures RootAt(TWO_USE_CASES, NAMESAKE_A, 2)
    ensures Resolve(TWO_USE_CASES, NAMESAKE_A, [NAMESAKE_A.Name()]) == Err(CircularExtends)
  {
    hide ParentOf, Resolve, RootAt, Ancestor;
    assert "use-cases/a"[10] == 'a' && "use-cases/b"[10] == 'b';
    ResolvesDirectly(TWO_USE_CASES, NAMESAKE_A, MIDDLE_B, "use-cases/b");
    ResolvesDirectly(TWO_USE_CASES, MIDDLE_B, ROOT_A, "use-cases/a");
    TwoStepCycle(TWO_USE_CASES, NAMESAKE_A, MIDDLE_B, ROOT_A);
  }

  const REPEATED: Requirement := Requirement("components/db", "as db")
  const RULE: InvariantBinding := Ref("invariants/stock")
  const SAME_STEP: Step := Step("check", "")

  const REPEATER: UseCase :=
    Bare("b", Some("use-cases/a")).(requirements := [REPEATED, REPEATED], invariants := [RULE, RULE], steps := [SAME_STEP, SAME_STEP])

  /** A child that repeats a requirement, an invariant and a step id of its own is resolved, and keeps them all. */
  lemma DuplicatesSurvive()
    ensures var r := Resolve(TWO_USE_CASES, REPEATER, [REPEATER.Name()]);
      && r.Ok?
      && r.value.flattened.requirements == [REPEATED, REPEATED] && !DistinctKeys(r.value.flattened.requirements, RequirementKey)
      && r.value.flattened.invariants == [RULE, RULE] && !DistinctKeys(r.value.flattened.invariants, InvariantKey)
      && r.value.flattened.steps == [SAME_STEP, SAME_STEP] && !UniqueIds(r.value.flattened.steps)
  {
    hide ParentOf;
    assert "use-cases/a"[10] == 'a' && "use-cases/b"[10] == 'b';
    ResolvesDirectly(TWO_USE_CASES, REPEATER, ROOT_A, "use-cases/a");
    UnknownOfNone([REPEATED, REPEATED], RequirementKey);
    UnknownOfNone([RULE, RULE], InvariantKey);
    assert KeysOf(ROOT_A.requirements, RequirementKey) == {} && KeysOf(ROOT_A.invariants, InvariantKey) == {};
    var r := Resolve(TWO_USE_CASES, REPEATER, [REPEATER.Name()]).value.flattened;
    assert r.requirements[0] == r.requirements[1] && r.invariants[0] == r.invariants[1] && r.steps[0] == r.steps[1];
  }

  lemma TwoStepCycle(reg: Registry, uc: UseCase, b: UseCase, a: UseCase)
    requires uc.parentRef.Some? && b.parentRef.Some? && a.parentRef.None?
    requires ParentOf(reg, uc) == Some(b) && ParentOf(reg, b) == Some(a)
    requires a.Name() == uc.Name() != b.Name()
    ensures RootAt(reg, uc, 2) && Resolve(reg, uc, [uc.Name()]) == Err(CircularExtends)
  {
    assert Ancestor(reg, uc, 0) == Some(uc);
    assert Ancestor(reg, uc, 1) == Some(b);
    assert Ancestor(reg, uc, 2) == Some(a);
    assert Resolve(reg, b, [uc.Name()] + [b.Name()]) == Err(CircularExtends);
  }

  lemma {:induction false} NoPrefixToStrip(text: string)
    requires '$' !in text
    ensures StripRefPrefix(text) == text
  {
    if |text| >= 5 {
      assert text[..5][0] == text[0];
      NoPrefixToStrip(text[1..]);
    }
  }
}
