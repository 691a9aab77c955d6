/** `resolve_extends`: flattening a use case along its chain of `extends` references. */
module Composition {
  import opened Wrappers

  // ---------- Specifications and their registry ----------

  datatype Step = Step(id: string, rest: string)

  datatype Requirement = Requirement(ref: string, rest: string)

  datatype InvariantBinding = Ref(ref: string) | Inline(name: string, rest: string)

  datatype Metadata = Metadata(name: string, rest: string)

  datatype UseCase = UseCase(
    metadata: Metadata,
    parentRef: Option<string>,
    trigger: Option<string>,
    inputFromEvent: map<string, string>,
    requirements: seq<Requirement>,
    preconditions: seq<string>,
    assumedPreconditions: seq<string>,
    steps: seq<Step>,
    alternativeFlows: seq<string>,
    postconditions: seq<string>,
    terminal: bool,
    invariants: seq<InvariantBinding>,
    concurrency: seq<string>)
  {
    function Name(): string { metadata.name }
  }

  datatype Spec = UseCaseSpec(uc: UseCase) | OtherSpec(kind: string, name: string)

  type Registry = map<string, Spec>

  datatype CompositionError = ParentNotFound | CircularExtends | StepIdClash

  datatype Resolution = Resolution(flattened: UseCase, chain: seq<string>, parentStepIds: seq<string>)

  function InvariantReference(b: InvariantBinding): string {
    match b
    case Ref(r) => r
    case Inline(n, _) => "invariants/" + n
  }

  /** `text.replace("$ref:", "")`. */
  function StripRefPrefix(text: string): string {
    if |text| < 5 then text
    else if text[..5] == "$ref:" then StripRefPrefix(text[5..])
    else [text[0]] + StripRefPrefix(text[1..])
  }

  const SINGULAR_TO_PLURAL: map<string, string> := map[
    "action" := "actions", "event" := "events", "component" := "components",
    "protocol" := "protocols", "usecase" := "use-cases", "invariant" := "invariants"]

  /** Position of the first slash, or the length of the text. */
  function FirstSlash(text: string): nat
    ensures FirstSlash(text) <= |text|
  {
    if text == "" || text[0] == '/' then 0 else 1 + FirstSlash(text[1..])
  }

  function ResolveRef(reg: Registry, ref: string): Option<Spec> {
    var i := FirstSlash(ref);
    if ref in reg then Some(reg[ref])
    else if i == |ref| || ref[..i] !in SINGULAR_TO_PLURAL then None
    else
      var plural := SINGULAR_TO_PLURAL[ref[..i]] + ref[i..];
      if plural in reg then Some(reg[plural]) else None
  }

  /** The use case that `uc` extends, when its reference leads to one. */
  function ParentOf(reg: Registry, uc: UseCase): (p: Option<UseCase>)
    ensures p.Some? ==> p.value in UseCases(reg)
  {
    if uc.parentRef.None? then None
    else match ResolveRef(reg, StripRefPrefix(uc.parentRef.value))
      case Some(UseCaseSpec(parent)) => Some(parent)
      case _ => None
  }

  const KIND_PLURAL: map<string, string> := map[
    "action" := "actions", "event" := "events", "component" := "components",
    "protocol" := "protocols", "invariant" := "invariants"]

  /** The registry key of a spec. */
  function RefKey(spec: Spec): string {
    match spec
    case UseCaseSpec(uc) => "use-cases/" + uc.Name()
    case OtherSpec(kind, name) => (if kind in KIND_PLURAL then KIND_PLURAL[kind] else kind + "s") + "/" + name
  }

  /** Every spec is stored under its own key. */
  ghost predicate WellKeyed(reg: Registry) {
    forall r :: r in reg ==> r == RefKey(reg[r])
  }

  /** `SpecRegistry.register`: a second spec of one kind and name is refused. */
  function Register(reg: Registry, spec: Spec): (r: Option<Registry>)
    ensures r.None? <==> RefKey(spec) in reg
    ensures r.Some? && WellKeyed(reg) ==> WellKeyed(r.value)
    ensures r.Some? ==> r.value.Keys == reg.Keys + {RefKey(spec)} && r.value[RefKey(spec)] == spec
    ensures r.Some? ==> forall key :: key in reg ==> r.value[key] == reg[key]
  {
    if RefKey(spec) in reg then None else Some(reg[RefKey(spec) := spec])
  }

  function UseCases(reg: Registry): set<UseCase> {
    set r | r in reg && reg[r].UseCaseSpec? :: reg[r].uc
  }

  /** Names of registered use cases that the chain has not reached yet. */
  function Unseen(reg: Registry, chain: seq<string>): set<string> {
    (set uc | uc in UseCases(reg) :: uc.Name()) - (set n | n in chain)
  }

  // ---------- Merging two levels ----------

  function KeysOf<T(==)>(xs: seq<T>, key: T -> string): set<string> {
    set x | x in xs :: key(x)
  }

  /** The entries whose key is not already known, in order. */
  function Unknown<T>(xs: seq<T>, key: T -> string, known: set<string>): seq<T> {
    if xs == [] then []
    else (if key(xs[0]) in known then [] else [xs[0]]) + Unknown(xs[1..], key, known)
  }

  function MergeByKey<T(==)>(parent: seq<T>, child: seq<T>, key: T -> string): seq<T> {
    parent + Unknown(child, key, KeysOf(parent, key))
  }

  /** Python's `child or parent` on an optional string: the empty string is falsy. */
  function OrElse(child: Option<string>, parent: Option<string>): Option<string> {
    if child.Some? && child.value != "" then child else parent
  }

  function StepIds(steps: seq<Step>): (ids: seq<string>)
    ensures |ids| == |steps|
    ensures forall i :: 0 <= i < |ids| ==> ids[i] == steps[i].id
  {
    seq(|steps|, i requires 0 <= i < |steps| => steps[i].id)
  }

  predicate Clash(parent: UseCase, child: UseCase) {
    exists p, c :: p in parent.steps && c in child.steps && p.id == c.id
  }

  const RequirementKey: Requirement -> string := (r: Requirement) => r.ref
  const InvariantKey: InvariantBinding -> string := (b: InvariantBinding) => InvariantReference(b)
  const TextKey: string -> string := (s: string) => s

  function Merge(parent: UseCase, child: UseCase): UseCase {
    UseCase(
      child.metadata,
      None,
      OrElse(child.trigger, parent.trigger),
      parent.inputFromEvent + child.inputFromEvent,
      MergeByKey(parent.requirements, child.requirements, RequirementKey),
      MergeByKey(parent.preconditions, child.preconditions, TextKey),
      [],
      parent.steps + child.steps,
      parent.alternativeFlows + child.alternativeFlows,
      MergeByKey(parent.postconditions, child.postconditions, TextKey),
      false,
      MergeByKey(parent.invariants, child.invariants, InvariantKey),
      parent.concurrency + child.concurrency)
  }

  /** The partial merge of the source: undefined when the two levels share a step id. */
  function TryMerge(parent: Option<UseCase>, child: Option<UseCase>): Option<UseCase> {
    if parent.None? || child.None? || Clash(parent.value, child.value) then None
    else Some(Merge(parent.value, child.value))
  }

  // ---------- Resolution ----------

  function Join(parent: UseCase, uc: UseCase, chain: seq<string>): Result<Resolution, CompositionError> {
    match TryMerge(Some(parent), Some(uc))
    case None => Err(StepIdClash)
    case Some(flat) => Ok(Resolution(flat, chain, StepIds(parent.steps)))
  }

  /** What a call of `resolve_extends` computes from the names already in its chain. */
  function Resolve(reg: Registry, uc: UseCase, chain: seq<string>): Result<Resolution, CompositionError>
    decreases Unseen(reg, chain)
  {
    if uc.parentRef.None? then Ok(Resolution(uc, [uc.Name()], []))
    else match ParentOf(reg, uc)
      case None => Err(ParentNotFound)
      case Some(parent) =>
        if parent.Name() in chain then Err(CircularExtends)
        else
          var longer := chain + [parent.Name()];
          assert parent.Name() in Unseen(reg, chain);
          if parent.parentRef.None? then Join(parent, uc, longer)
          else match Resolve(reg, parent, longer)
            case Err(e) => Err(e)
            case Ok(up) => Join(up.flattened, uc, up.chain)
  }

  /** A mutable Python list of names, shared by a call and its callee. */
  class NameList {
    var names: seq<string>

    constructor (initial: seq<string>)
      ensures names == initial
    {
      names := initial;
    }

    method Append(name: string)
      modifies this
      ensures names == old(names) + [name]
    {
      names := names + [name];
    }
  }

  /** The append loop that the source repeats for each keyed list. */
  method AppendNew<T(==)>(parent: seq<T>, child: seq<T>, key: T -> string) returns (merged: seq<T>)
    ensures merged == MergeByKey(parent, child, key)
  {
    var known := KeysOf(parent, key);
    merged := parent;
    var i := 0;
    while i < |child|
      invariant 0 <= i <= |child|
      invariant merged + Unknown(child[i..], key, known) == MergeByKey(parent, child, key)
    {
      assert child[i..][1..] == child[i + 1..];
      if key(child[i]) !in known {
        merged := merged + [child[i]];
      }
      i := i + 1;
    }
  }

  method ResolveExtends(uc: UseCase, reg: Registry, given: NameList?)
    returns (r: Result<Resolution, CompositionError>)
    modifies if given == null then {} else {given}
    ensures given == null || old(given.names) == [] ==> r == Resolve(reg, uc, [uc.Name()])
    ensures given != null && old(given.names) != [] ==> r == Resolve(reg, uc, old(given.names))
    ensures given != null && (uc.parentRef.None? || old(given.names) == []) ==> given.names == old(given.names)
    ensures given != null && uc.parentRef.Some? && old(given.names) != [] && r.Ok? ==> given.names == r.value.chain
    decreases Unseen(reg, if given == null || given.names == [] then [uc.Name()] else given.names)
  {
    if uc.parentRef.None? {
      return Ok(Resolution(uc, [uc.Name()], []));
    }
    var chain: NameList;
    if given == null || given.names == [] {
      chain := new NameList([uc.Name()]);
    } else {
      chain := given;
    }
    ghost var before := chain.names;
    var found := ParentOf(reg, uc);
    if found.None? {
      return Err(ParentNotFound);
    }
    var parent := found.value;
    if parent.Name() in chain.names {
      return Err(CircularExtends);
    }
    assert parent.Name() in Unseen(reg, before);
    chain.Append(parent.Name());
    var result := chain.names;
    if parent.parentRef.Some? {
      var up := ResolveExtends(parent, reg, chain);
      if up.Err? {
        return up;
      }
      parent := up.value.flattened;
      result := up.value.chain;
    }
    if exists p, c :: p in parent.steps && c in uc.steps && p.id == c.id {
      return Err(StepIdClash);
    }
    var requirements := AppendNew(parent.requirements, uc.requirements, RequirementKey);
    var invariants := AppendNew(parent.invariants, uc.invariants, InvariantKey);
    var postconditions := AppendNew(parent.postconditions, uc.postconditions, TextKey);
    var preconditions := AppendNew(parent.preconditions, uc.preconditions, TextKey);
    var flattened := UseCase(
      uc.metadata, None, OrElse(uc.trigger, parent.trigger), parent.inputFromEvent + uc.inputFromEvent,
      requirements, preconditions, [], parent.steps + uc.steps,
      parent.alternativeFlows + uc.alternativeFlows, postconditions, false, invariants,
      parent.concurrency + uc.concurrency);
    r := Ok(Resolution(flattened, result, StepIds(parent.steps)));
  }
}
