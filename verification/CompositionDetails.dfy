/** What `resolve_extends` does with references, step ids and merge keys, in literal terms. */
module CompositionDetails {
  import opened Wrappers
  import opened Composition
  import opened CompositionWalk
  import opened CompositionLaws

  // ---------- Where a reference leads ----------

  lemma {:induction false} PrefixRemoved(before: string, after: string)
    requires '$' !in before && '$' !in after
    ensures StripRefPrefix(before + "$ref:" + after) == before + after
  {
    hide StripRefPrefix;
    var text := before + "$ref:" + after;
    if before == "" {
      assert text[..5] == "$ref:" && text[5..] == after;
      StripOne(text);
      NoPrefixToStrip(after);
    } else {
      assert text[0] == before[0] && text[1..] == before[1..] + "$ref:" + after;
      StripOne(text);
      PrefixRemoved(before[1..], after);
      assert [before[0]] + (before[1..] + after) == before + after;
    }
  }

  lemma StripOne(text: string)
    requires |text| >= 5
    ensures text[..5] == "$ref:" ==> StripRefPrefix(text) == StripRefPrefix(text[5..])
    ensures text[0] != '$' ==> StripRefPrefix(text) == [text[0]] + StripRefPrefix(text[1..])
  {
    assert text[..5][0] == text[0] && "$ref:"[0] == '$';
  }

  /** A reference leads to the use case stored under its key, with "$ref:" before it or without. */
  lemma KeyLeads(reg: Registry, uc: UseCase, key: string, parent: UseCase)
    requires '$' !in key && key in reg && reg[key] == UseCaseSpec(parent)
    requires uc.parentRef == Some(key) || uc.parentRef == Some("$ref:" + key)
    ensures ParentOf(reg, uc) == Some(parent)
  {
    NoPrefixToStrip(key);
    PrefixRemoved("", key);
    assert "" + "$ref:" + key == "$ref:" + key && "" + key == key;
  }

  /** One that leads to a spec of another kind, or to nothing, leads to no parent. */
  lemma KeyMisleads(reg: Registry, uc: UseCase, key: string)
    requires '$' !in key && (uc.parentRef == Some(key) || uc.parentRef == Some("$ref:" + key))
    requires if key in reg then reg[key].OtherSpec? else '/' !in key
    ensures ParentOf(reg, uc) == None
    ensures Resolve(reg, uc, [uc.Name()]) == Err(ParentNotFound)
  {
    NoPrefixToStrip(key);
    PrefixRemoved("", key);
    assert "" + "$ref:" + key == "$ref:" + key && "" + key == key;
    if key !in reg { NoSlash(key); }
  }

  lemma {:induction false} NoSlash(text: string)
    requires '/' !in text
    ensures FirstSlash(text) == |text|
  {
    if text != "" { NoSlash(text[1..]); }
  }

  lemma {:induction false} SlashAfter(kind: string, name: string)
    requires '/' !in kind
    ensures FirstSlash(kind + "/" + name) == |kind|
  {
    var text := kind + "/" + name;
    if kind != "" {
      assert text[1..] == kind[1..] + "/" + name;
      SlashAfter(kind[1..], name);
    }
  }

  /** A kind in the singular stands for its plural when nothing is stored under the singular. */
  lemma SingularLeads(reg: Registry, singular: string, plural: string, name: string)
    requires (singular, plural) in {("action", "actions"), ("event", "events"), ("component", "components"),
                                    ("protocol", "protocols"), ("usecase", "use-cases"), ("invariant", "invariants")}
    requires singular + "/" + name !in reg && plural + "/" + name in reg
    ensures ResolveRef(reg, singular + "/" + name) == Some(reg[plural + "/" + name])
  {
    var ref := singular + "/" + name;
    SlashAfter(singular, name);
    assert ref[..|singular|] == singular && ref[|singular|..] == "/" + name;
    assert plural + "/" + name == plural + ("/" + name);
  }

  /** Hence `usecase/x` leads to the use case x, with "$ref:" before it or without. */
  lemma SingularUseCaseLeads(reg: Registry, uc: UseCase, name: string, parent: UseCase)
    requires '$' !in name && "usecase/" + name !in reg
    requires "use-cases/" + name in reg && reg["use-cases/" + name] == UseCaseSpec(parent)
    requires uc.parentRef == Some("usecase/" + name) || uc.parentRef == Some("$ref:" + "usecase/" + name)
    ensures ParentOf(reg, uc) == Some(parent)
  {
    hide ResolveRef, StripRefPrefix;
    var key := "usecase/" + name;
    Spelled(name);
    SingularLeads(reg, "usecase", "use-cases", name);
    NoPrefixToStrip(key);
    PrefixRemoved("", key);
  }

  lemma Spelled(name: string)
    ensures "usecase" + "/" + name == "usecase/" + name && "use-cases" + "/" + name == "use-cases/" + name
    ensures "" + "$ref:" + ("usecase/" + name) == "$ref:" + "usecase/" + name && "" + ("usecase/" + name) == "usecase/" + name
    ensures '$' !in name ==> '$' !in "usecase/" + name
  {
  }

  /** A use case is registered under its name. */
  lemma RegisteredUnderName(reg: Registry, uc: UseCase)
    requires "use-cases/" + uc.metadata.name !in reg
    ensures Register(reg, UseCaseSpec(uc)) == Some(reg["use-cases/" + uc.metadata.name := UseCaseSpec(uc)])
  {
  }

  // ---------- What a step clash is ----------

  /** Two different levels of the walk have steps with one id. */
  ghost predicate SharedId(reg: Registry, uc: UseCase, i: nat, j: nat) {
    && i < j && Ancestor(reg, uc, i).Some? && Ancestor(reg, uc, j).Some?
    && exists s, t :: s in Ancestor(reg, uc, i).value.steps && t in Ancestor(reg, uc, j).value.steps && s.id == t.id
  }

  lemma ClashIsSharedId(reg: Registry, uc: UseCase, i: nat, j: nat)
    requires i < j
    ensures ClashAt(reg, uc, i, j) <==> SharedId(reg, uc, i, j)
  {
    hide Ancestor;
    var a, b := Ancestor(reg, uc, i), Ancestor(reg, uc, j);
    if SharedId(reg, uc, i, j) {
      var s, t :| s in a.value.steps && t in b.value.steps && s.id == t.id;
      assert t in b.value.steps && s in a.value.steps && t.id == s.id;
    }
  }

  /** A refusal for clashing steps names a real one: for any registry, two levels have steps with one id. */
  lemma ClashHasSharedId(reg: Registry, uc: UseCase)
    requires Resolve(reg, uc, [uc.Name()]) == Err(StepIdClash)
    ensures exists i: nat, j: nat :: SharedId(reg, uc, i, j)
  {
    hide Resolve, Ancestor, ClashAt, SharedId;
    OutcomeByWalk(reg, uc);
    var k: nat :| EndsAt(reg, uc, k, true);
    var i: nat, j: nat :| i < j <= k && ClashAt(reg, uc, i, j);
    ClashIsSharedId(reg, uc, i, j);
  }

  /** With unique names, that is exactly when the walk ends and has two such levels. */
  lemma ClashIffSharedId(reg: Registry, uc: UseCase)
    requires Coherent(reg, uc)
    ensures Resolve(reg, uc, [uc.Name()]) == Err(StepIdClash) <==>
            exists k: nat, i: nat, j: nat :: RootAt(reg, uc, k) && j <= k && SharedId(reg, uc, i, j)
  {
    hide Resolve, Ancestor, ClashAt, SharedId, RootAt;
    OutcomeDecided(reg, uc);
    if Ends(reg, uc, true) {
      var k: nat :| EndsAt(reg, uc, k, true);
      var i: nat, j: nat :| i < j <= k && ClashAt(reg, uc, i, j);
      ClashIsSharedId(reg, uc, i, j);
    }
    if k: nat, i: nat, j: nat :| RootAt(reg, uc, k) && j <= k && SharedId(reg, uc, i, j) {
      SharedIsOrdered(reg, uc, i, j);
      ClashIsSharedId(reg, uc, i, j);
      assert EndsAt(reg, uc, k, true);
    }
  }

  lemma SharedIsOrdered(reg: Registry, uc: UseCase, i: nat, j: nat)
    requires SharedId(reg, uc, i, j)
    ensures i < j
  {
  }

  // ---------- What the merged lists hold ----------

  lemma {:induction false} InUnion(w: seq<UseCase>, keys: UseCase -> set<string>, k: string)
    ensures k in UnionOver(w, keys) <==> exists i :: 0 <= i < |w| && k in keys(w[i])
  {
    if w != [] {
      InUnion(w[1..], keys, k);
      if k in UnionOver(w[1..], keys) {
        var i :| 0 <= i < |w[1..]| && k in keys(w[1..][i]);
        assert k in keys(w[i + 1]);
      }
      if i :| 0 < i < |w| && k in keys(w[i]) { assert k in keys(w[1..][i - 1]); }
    }
  }

  predicate Requires(uc: UseCase, ref: string) { exists r :: r in uc.requirements && r.ref == ref }

  /** The invariant is bound by reference, or defined in place under that name. */
  predicate Binds(uc: UseCase, ref: string) {
    exists b :: b in uc.invariants && match b case Ref(r) => r == ref case Inline(name, _) => "invariants/" + name == ref
  }

  lemma KeysInWords(uc: UseCase, k: string)
    ensures k in RequirementKeys(uc) <==> Requires(uc, k)
    ensures k in InvariantKeys(uc) <==> Binds(uc, k)
    ensures k in PreconditionKeys(uc) <==> k in uc.preconditions
    ensures k in PostconditionKeys(uc) <==> k in uc.postconditions
  {
    if Requires(uc, k) {
      var r :| r in uc.requirements && r.ref == k;
      assert RequirementKey(r) == k;
    }
    if Binds(uc, k) {
      var b :| b in uc.invariants && InvariantReference(b) == k;
      assert InvariantKey(b) == k;
    }
    if k in uc.preconditions { assert TextKey(k) == k; }
    if k in uc.postconditions { assert TextKey(k) == k; }
  }

  /** A flattened use case requires, binds, presupposes and promises exactly what some level does. */
  lemma FlattenedHolds(w: seq<UseCase>, k: string)
    requires w != [] && Flatten(w).Some?
    ensures Requires(Flatten(w).value, k) <==> exists i :: 0 <= i < |w| && Requires(w[i], k)
    ensures Binds(Flatten(w).value, k) <==> exists i :: 0 <= i < |w| && Binds(w[i], k)
    ensures k in Flatten(w).value.preconditions <==> exists i :: 0 <= i < |w| && k in w[i].preconditions
    ensures k in Flatten(w).value.postconditions <==> exists i :: 0 <= i < |w| && k in w[i].postconditions
  {
    hide Flatten, UnionOver, RequirementKeys, InvariantKeys, PreconditionKeys, PostconditionKeys, Requires, Binds;
    FlattenKeys(w);
    KeysInWords(Flatten(w).value, k);
    InUnion(w, RequirementKeys, k);
    InUnion(w, InvariantKeys, k);
    InUnion(w, PreconditionKeys, k);
    InUnion(w, PostconditionKeys, k);
    forall i | 0 <= i < |w|
      ensures k in RequirementKeys(w[i]) <==> Requires(w[i], k)
      ensures k in InvariantKeys(w[i]) <==> Binds(w[i], k)
      ensures k in PreconditionKeys(w[i]) <==> k in w[i].preconditions
      ensures k in PostconditionKeys(w[i]) <==> k in w[i].postconditions
    {
      KeysInWords(w[i], k);
    }
  }
}
