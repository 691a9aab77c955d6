/** Digests of a benchmark run that ignore what differs from run to run: `_stable_lifecycle_digest` and
    `_stable_successor_digest` in tools/rel001_benchmark.py. The hash is any function on canonical texts. */
module StableDigests {
  import opened Wrappers
  import opened CanonicalJson

  type Fields = map<string, Json>

  /** A key or a shape that the code relies on is missing. */
  datatype Malformed = Malformed

  datatype Chain = Chain(
    proposal: Fields, delta: Fields, tasks: Fields,
    implementation: Fields, verification: Fields, archive: Fields)

  const VERSION: Json := Text("1.0.0")

  function Digest(h: string -> string, j: Json): string { h(Canonical(j)) }

  lemma DigestsAgree(h: string -> string, a: Json, b: Json)
    requires Injective(h) && Digest(h, a) == Digest(h, b)
    ensures a == b
  {
    hide Canonical;
    assert Canonical(a) == Canonical(b);
    CanonicalInjective(a, b);
  }

  // ---------- One overwritten digest ----------

  predicate HoldsDigest(j: Json, key: string) { j.Object? && key in j.fields && j.fields[key].Object? }

  /** `j[key]["value"] = digest`. */
  function PutDigest(j: Json, key: string, digest: string): Json
    requires HoldsDigest(j, key)
  {
    Object(j.fields[key := Object(j.fields[key].fields["value" := Text(digest)])])
  }

  ghost predicate SameButDigest(a: Json, b: Json, key: string)
    requires HoldsDigest(a, key) && HoldsDigest(b, key)
  {
    && a.fields - {key} == b.fields - {key}
    && a.fields[key].fields - {"value"} == b.fields[key].fields - {"value"}
  }

  lemma UpdateSame(a: Fields, b: Fields, key: string, v: Json, w: Json)
    ensures a[key := v] == b[key := w] <==> v == w && a - {key} == b - {key}
  {
    if a[key := v] == b[key := w] {
      assert a[key := v][key] == b[key := w][key];
      assert a - {key} == a[key := v] - {key} && b - {key} == b[key := w] - {key};
    }
    if a - {key} == b - {key} && v == w {
      assert a[key := v] == (a - {key})[key := v] && b[key := w] == (b - {key})[key := w];
    }
  }

  lemma PutDigestSame(a: Json, b: Json, key: string, d: string, e: string)
    requires HoldsDigest(a, key) && HoldsDigest(b, key)
    ensures PutDigest(a, key, d) == PutDigest(b, key, e) <==> d == e && SameButDigest(a, b, key)
  {
    UpdateSame(a.fields[key].fields, b.fields[key].fields, "value", Text(d), Text(e));
    UpdateSame(a.fields, b.fields, key,
      Object(a.fields[key].fields["value" := Text(d)]), Object(b.fields[key].fields["value" := Text(e)]));
  }

  // ---------- References to other resources ----------

  predicate HasReference(m: Fields, key: string) { key in m && HoldsDigest(m[key], "canonical_digest") }

  /** `m[key]["canonical_digest"]["value"] = digest`. */
  function PutReference(m: Fields, key: string, digest: string): Fields
    requires HasReference(m, key)
  {
    m[key := PutDigest(m[key], "canonical_digest", digest)]
  }

  lemma PutReferenceSame(a: Fields, b: Fields, key: string, d: string, e: string)
    requires HasReference(a, key) && HasReference(b, key)
    ensures PutReference(a, key, d) == PutReference(b, key, e) <==>
            d == e && a - {key} == b - {key} && SameButDigest(a[key], b[key], "canonical_digest")
  {
    PutDigestSame(a[key], b[key], "canonical_digest", d, e);
    UpdateSame(a, b, key, PutDigest(a[key], "canonical_digest", d), PutDigest(b[key], "canonical_digest", e));
  }

  // ---------- Bindings of verification results ----------

  predicate WellFormedBinding(b: Json) {
    && b.Object?
    && "result" in b.fields && b.fields["result"].Object?
    && "id" in b.fields["result"].fields && "executed_at" in b.fields["result"].fields
    && "validation" in b.fields && HoldsDigest(b.fields["validation"], "result_digest")
  }

  /** `_stable_verification_result_projection`: a result without its identity and its time. */
  function StableResult(result: Fields): Json {
    Object(map["projection_version" := VERSION, "result" := Object(result - {"id", "executed_at"})])
  }

  function StableBinding(h: string -> string, b: Json): Json
    requires WellFormedBinding(b)
  {
    var result := StableResult(b.fields["result"].fields);
    Object(b.fields["result" := result]
                   ["validation" := PutDigest(b.fields["validation"], "result_digest", Digest(h, result))])
  }

  /** Equal but for the result's identity and time and the digest of that result. */
  ghost predicate SameBinding(a: Json, b: Json)
    requires WellFormedBinding(a) && WellFormedBinding(b)
  {
    && a.fields - {"result", "validation"} == b.fields - {"result", "validation"}
    && a.fields["result"].fields - {"id", "executed_at"} == b.fields["result"].fields - {"id", "executed_at"}
    && SameButDigest(a.fields["validation"], b.fields["validation"], "result_digest")
  }

  lemma StableResultSame(a: Fields, b: Fields)
    ensures StableResult(a) == StableResult(b) <==> a - {"id", "executed_at"} == b - {"id", "executed_at"}
  {
    if StableResult(a) == StableResult(b) {
      assert StableResult(a).fields["result"] == StableResult(b).fields["result"];
    }
  }

  lemma StableBindingSame(h: string -> string, a: Json, b: Json)
    requires WellFormedBinding(a) && WellFormedBinding(b)
    ensures StableBinding(h, a) == StableBinding(h, b) <==> SameBinding(a, b)
  {
    hide StableResult, Digest, PutDigest;
    var ra, rb := StableResult(a.fields["result"].fields), StableResult(b.fields["result"].fields);
    StableResultSame(a.fields["result"].fields, b.fields["result"].fields);
    var va := PutDigest(a.fields["validation"], "result_digest", Digest(h, ra));
    var vb := PutDigest(b.fields["validation"], "result_digest", Digest(h, rb));
    PutDigestSame(a.fields["validation"], b.fields["validation"], "result_digest", Digest(h, ra), Digest(h, rb));
    UpdateSame(a.fields["result" := ra], b.fields["result" := rb], "validation", va, vb);
    TwoUpdates(a.fields, b.fields, ra, rb);
  }

  lemma TwoUpdates(a: Fields, b: Fields, v: Json, w: Json)
    ensures a["result" := v] - {"validation"} == b["result" := w] - {"validation"} <==>
            v == w && a - {"result", "validation"} == b - {"result", "validation"}
  {
    UpdateSame(a - {"validation"}, b - {"validation"}, "result", v, w);
    assert a["result" := v] - {"validation"} == (a - {"validation"})["result" := v];
    assert b["result" := w] - {"validation"} == (b - {"validation"})["result" := w];
    assert a - {"validation"} - {"result"} == a - {"result", "validation"};
    assert b - {"validation"} - {"result"} == b - {"result", "validation"};
  }

  // ---------- The chain ----------

  predicate WellFormedImplementation(m: Fields) {
    && "bindings" in m && m["bindings"].Array?
    && forall i :: 0 <= i < |m["bindings"].items| ==> WellFormedBinding(m["bindings"].items[i])
  }

  predicate WellFormed(c: Chain) {
    && WellFormedImplementation(c.implementation)
    && HasReference(c.verification, "implementation")
    && HasReference(c.archive, "implementation")
    && HasReference(c.archive, "verification")
  }

  function StableBindings(h: string -> string, bindings: seq<Json>): (r: seq<Json>)
    requires forall i :: 0 <= i < |bindings| ==> WellFormedBinding(bindings[i])
    ensures |r| == |bindings|
  {
    seq(|bindings|, i requires 0 <= i < |bindings| => StableBinding(h, bindings[i]))
  }

  function StableImplementation(h: string -> string, m: Fields): Fields
    requires WellFormedImplementation(m)
  {
    m["bindings" := Array(StableBindings(h, m["bindings"].items))]
  }

  function Versioned(name: string, value: Fields): Json {
    Object(map["projection_version" := VERSION, name := Object(value)])
  }

  function Resources(c: Chain): Fields {
    map["proposal" := Object(c.proposal), "delta" := Object(c.delta), "tasks" := Object(c.tasks),
        "implementation" := Object(c.implementation), "verification" := Object(c.verification),
        "archive" := Object(c.archive)]
  }

  /** The chain with every run-specific digest computed anew from the stable parts it names. */
  function StableChain(h: string -> string, c: Chain): Chain
    requires WellFormed(c)
  {
    var implementation := StableImplementation(h, c.implementation);
    var d := Digest(h, Versioned("implementation", implementation));
    var verification := PutReference(c.verification, "implementation", d);
    var e := Digest(h, Versioned("verification", verification));
    c.(implementation := implementation, verification := verification,
       archive := PutReference(PutReference(c.archive, "implementation", d), "verification", e))
  }

  function LifecycleDigest(h: string -> string, c: Chain): string
    requires WellFormed(c)
  {
    Digest(h, Versioned("resources", Resources(StableChain(h, c))))
  }

  method StableLifecycleDigest(h: string -> string, chain: Chain) returns (r: Result<string, Malformed>)
    ensures r.Ok? <==> WellFormed(chain)
    ensures r.Ok? ==> r.value == LifecycleDigest(h, chain)
  {
    hide Digest, StableBinding, PutReference, Versioned, Resources;
    var implementation, verification, archive := chain.implementation, chain.verification, chain.archive;
    if "bindings" !in implementation || !implementation["bindings"].Array? { return Err(Malformed); }
    var bindings := implementation["bindings"].items;
    ghost var was := bindings;
    for i := 0 to |bindings|
      invariant |bindings| == |was|
      invariant forall k :: 0 <= k < i ==> WellFormedBinding(was[k]) && bindings[k] == StableBinding(h, was[k])
      invariant forall k :: i <= k < |was| ==> bindings[k] == was[k]
    {
      var stable := ProjectBinding(h, bindings[i]);
      if stable.Err? { return Err(Malformed); }
      bindings := bindings[i := stable.value];
    }
    assert bindings == StableBindings(h, was);
    implementation := implementation["bindings" := Array(bindings)];
    var implementationDigest := Digest(h, Versioned("implementation", implementation));
    if !HasReference(verification, "implementation") { return Err(Malformed); }
    verification := PutReference(verification, "implementation", implementationDigest);
    var verificationDigest := Digest(h, Versioned("verification", verification));
    if !HasReference(archive, "implementation") { return Err(Malformed); }
    archive := PutReference(archive, "implementation", implementationDigest);
    ReferenceKept(chain.archive, "implementation", implementationDigest, "verification");
    if !HasReference(archive, "verification") { return Err(Malformed); }
    archive := PutReference(archive, "verification", verificationDigest);
    r := Ok(Digest(h, Versioned("resources",
      Resources(chain.(implementation := implementation, verification := verification, archive := archive)))));
  }

  method ProjectBinding(h: string -> string, binding: Json) returns (r: Result<Json, Malformed>)
    ensures r.Ok? <==> WellFormedBinding(binding)
    ensures r.Ok? ==> r.value == StableBinding(h, binding)
  {
    hide Digest;
    if !binding.Object? || "result" !in binding.fields || !binding.fields["result"].Object? { return Err(Malformed); }
    var payload := binding.fields["result"].fields;
    if "id" !in payload { return Err(Malformed); }
    payload := payload - {"id"};
    if "executed_at" !in payload { return Err(Malformed); }
    payload := payload - {"executed_at"};
    assert payload == binding.fields["result"].fields - {"id", "executed_at"};
    var projection := Object(map["projection_version" := VERSION, "result" := Object(payload)]);
    var fields := binding.fields["result" := projection];
    if "validation" !in fields || !HoldsDigest(fields["validation"], "result_digest") { return Err(Malformed); }
    r := Ok(Object(fields["validation" := PutDigest(fields["validation"], "result_digest", Digest(h, projection))]));
  }

  lemma ReferenceKept(m: Fields, key: string, digest: string, other: string)
    requires HasReference(m, key) && key != other
    ensures HasReference(PutReference(m, key, digest), other) <==> HasReference(m, other)
  {
  }

  // ---------- What the digest ignores, and what it does not ----------

  ghost predicate SameImplementation(a: Fields, b: Fields)
    requires WellFormedImplementation(a) && WellFormedImplementation(b)
  {
    var x, y := a["bindings"].items, b["bindings"].items;
    && a - {"bindings"} == b - {"bindings"}
    && |x| == |y|
    && forall i :: 0 <= i < |x| ==> SameBinding(x[i], y[i])
  }

  /** Equal outside result identities, execution times and the digests bound to them. */
  ghost predicate SameRun(a: Chain, b: Chain)
    requires WellFormed(a) && WellFormed(b)
  {
    && a.proposal == b.proposal && a.delta == b.delta && a.tasks == b.tasks
    && SameImplementation(a.implementation, b.implementation)
    && a.verification - {"implementation"} == b.verification - {"implementation"}
    && SameButDigest(a.verification["implementation"], b.verification["implementation"], "canonical_digest")
    && a.archive - {"implementation", "verification"} == b.archive - {"implementation", "verification"}
    && SameButDigest(a.archive["implementation"], b.archive["implementation"], "canonical_digest")
    && SameButDigest(a.archive["verification"], b.archive["verification"], "canonical_digest")
  }

  lemma StableImplementationSame(h: string -> string, a: Fields, b: Fields)
    requires WellFormedImplementation(a) && WellFormedImplementation(b)
    ensures StableImplementation(h, a) == StableImplementation(h, b) <==> SameImplementation(a, b)
  {
    hide StableBinding, SameBinding, WellFormedBinding;
    var x, y := a["bindings"].items, b["bindings"].items;
    var p, q := StableBindings(h, x), StableBindings(h, y);
    UpdateSame(a, b, "bindings", Array(p), Array(q));
    forall i | 0 <= i < |x| && |x| == |y| ensures p[i] == q[i] <==> SameBinding(x[i], y[i]) {
      StableBindingSame(h, x[i], y[i]);
    }
    if p == q { assert forall i :: 0 <= i < |x| ==> p[i] == q[i]; }
  }

  lemma ArchiveSame(a: Fields, b: Fields, d: string, e: string, d': string, e': string)
    requires HasReference(a, "implementation") && HasReference(a, "verification")
    requires HasReference(b, "implementation") && HasReference(b, "verification")
    ensures HasReference(PutReference(a, "implementation", d), "verification")
    ensures HasReference(PutReference(b, "implementation", d'), "verification")
    ensures PutReference(PutReference(a, "implementation", d), "verification", e) ==
            PutReference(PutReference(b, "implementation", d'), "verification", e') <==>
            && d == d' && e == e'
            && a - {"implementation", "verification"} == b - {"implementation", "verification"}
            && SameButDigest(a["implementation"], b["implementation"], "canonical_digest")
            && SameButDigest(a["verification"], b["verification"], "canonical_digest")
  {
    hide PutDigest, SameButDigest;
    ReferenceKept(a, "implementation", d, "verification");
    ReferenceKept(b, "implementation", d', "verification");
    PutReferenceSame(PutReference(a, "implementation", d), PutReference(b, "implementation", d'), "verification", e, e');
    var v, w := PutDigest(a["implementation"], "canonical_digest", d), PutDigest(b["implementation"], "canonical_digest", d');
    PutDigestSame(a["implementation"], b["implementation"], "canonical_digest", d, d');
    UpdateSame(a - {"verification"}, b - {"verification"}, "implementation", v, w);
    WithoutTwo(a, v);
    WithoutTwo(b, w);
  }

  lemma WithoutTwo(a: Fields, v: Json)
    ensures a["implementation" := v] - {"verification"} == (a - {"verification"})["implementation" := v]
    ensures a - {"verification"} - {"implementation"} == a - {"implementation", "verification"}
  {
  }

  lemma ResourcesSame(a: Chain, b: Chain)
    ensures Versioned("resources", Resources(a)) == Versioned("resources", Resources(b)) <==> a == b
  {
    if Versioned("resources", Resources(a)) == Versioned("resources", Resources(b)) {
      var x, y := Versioned("resources", Resources(a)).fields["resources"], Versioned("resources", Resources(b)).fields["resources"];
      assert x.fields == Resources(a) && y.fields == Resources(b);
      assert x.fields["proposal"] == y.fields["proposal"] && x.fields["delta"] == y.fields["delta"];
      assert x.fields["tasks"] == y.fields["tasks"] && x.fields["implementation"] == y.fields["implementation"];
      assert x.fields["verification"] == y.fields["verification"] && x.fields["archive"] == y.fields["archive"];
    }
  }

  lemma StableChainSame(h: string -> string, a: Chain, b: Chain)
    requires WellFormed(a) && WellFormed(b)
    ensures StableChain(h, a) == StableChain(h, b) <==> SameRun(a, b)
  {
    hide StableImplementation, SameImplementation, Digest, PutReference, SameButDigest, WellFormedImplementation, HasReference, Versioned;
    StableImplementationSame(h, a.implementation, b.implementation);
    var d := Digest(h, Versioned("implementation", StableImplementation(h, a.implementation)));
    var d' := Digest(h, Versioned("implementation", StableImplementation(h, b.implementation)));
    PutReferenceSame(a.verification, b.verification, "implementation", d, d');
    var e := Digest(h, Versioned("verification", PutReference(a.verification, "implementation", d)));
    var e' := Digest(h, Versioned("verification", PutReference(b.verification, "implementation", d')));
    ArchiveSame(a.archive, b.archive, d, e, d', e');
  }

  /** Any hash gives equal digests to two runs of the same chain. */
  lemma SameRunSameDigest(h: string -> string, a: Chain, b: Chain)
    requires WellFormed(a) && WellFormed(b) && SameRun(a, b)
    ensures LifecycleDigest(h, a) == LifecycleDigest(h, b)
  {
    StableChainSame(h, a, b);
  }

  /** A collision-free hash tells every other difference apart. */
  lemma DigestIffSameRun(h: string -> string, a: Chain, b: Chain)
    requires Injective(h) && WellFormed(a) && WellFormed(b)
    ensures LifecycleDigest(h, a) == LifecycleDigest(h, b) <==> SameRun(a, b)
  {
    hide Digest, StableChain, SameRun, Versioned, Resources, WellFormed;
    var x, y := Versioned("resources", Resources(StableChain(h, a))), Versioned("resources", Resources(StableChain(h, b)));
    if Digest(h, x) == Digest(h, y) { DigestsAgree(h, x, y); }
    ResourcesSame(StableChain(h, a), StableChain(h, b));
    StableChainSame(h, a, b);
  }

  // ---------- The successor ----------

  predicate Hashable(j: Json) { !j.Array? && !j.Object? }

  predicate IsEvidence(entity: Json)
    requires entity.Object? && "kind" in entity.fields
  {
    entity.fields["kind"] == Text("verification_evidence")
  }

  /** `entity.get("id")`. */
  function IdOf(entity: Json): Json
    requires entity.Object?
  {
    if "id" in entity.fields then entity.fields["id"] else Null
  }

  predicate WellFormedEntity(entity: Json) {
    && entity.Object? && "kind" in entity.fields
    && if IsEvidence(entity) then
         && "provenance" in entity.fields && entity.fields["provenance"].Object?
         && "target_id" in entity.fields["provenance"].fields
         && Hashable(entity.fields["provenance"].fields["target_id"])
       else Hashable(IdOf(entity))
  }

  type Entity = j: Json | WellFormedEntity(j) witness Object(map["kind" := Null])

  function Target(entity: Entity): Json
    requires IsEvidence(entity)
  {
    entity.fields["provenance"].fields["target_id"]
  }

  function RuntimeIds(entities: seq<Entity>): set<Json> {
    set i | 0 <= i < |entities| && IsEvidence(entities[i]) :: Target(entities[i])
  }

  predicate Stays(entity: Entity, ids: set<Json>) { !IsEvidence(entity) && IdOf(entity) !in ids }

  function Keep(entities: seq<Entity>, ids: set<Json>): seq<Entity> {
    if entities == [] then []
    else (if Stays(entities[0], ids) then [entities[0]] else []) + Keep(entities[1..], ids)
  }

  function StableEntities(entities: seq<Entity>): seq<Entity> { Keep(entities, RuntimeIds(entities)) }

  /** The digest of a successor with the entities given and other fields `rest`. */
  function SuccessorDigest(h: string -> string, rest: Fields, entities: seq<Entity>): string {
    Digest(h, Versioned("behavior", rest["entities" := Array(StableEntities(entities))]))
  }

  /** The set comprehension: target identities of verification evidence. */
  function CollectIds(entities: seq<Json>): Result<set<Json>, Malformed> {
    if entities == [] then Ok({})
    else
      var e := entities[0];
      if !e.Object? || "kind" !in e.fields then Err(Malformed)
      else if !IsEvidence(e) then CollectIds(entities[1..])
      else if "provenance" !in e.fields || !e.fields["provenance"].Object? then Err(Malformed)
      else
        var provenance := e.fields["provenance"].fields;
        if "target_id" !in provenance || !Hashable(provenance["target_id"]) then Err(Malformed)
        else match CollectIds(entities[1..])
          case Err(error) => Err(error)
          case Ok(ids) => Ok({provenance["target_id"]} + ids)
  }

  /** The list comprehension: what is neither evidence nor named by it. */
  function DropRuntime(entities: seq<Json>, ids: set<Json>): Result<seq<Json>, Malformed> {
    if entities == [] then Ok([])
    else
      var e := entities[0];
      if !e.Object? || "kind" !in e.fields then Err(Malformed)
      else if IsEvidence(e) then DropRuntime(entities[1..], ids)
      else if !Hashable(IdOf(e)) then Err(Malformed)
      else match DropRuntime(entities[1..], ids)
        case Err(error) => Err(error)
        case Ok(kept) => Ok(if IdOf(e) in ids then kept else [e] + kept)
  }

  function StableSuccessorDigest(h: string -> string, payload: Fields): Result<string, Malformed> {
    if "entities" !in payload || !payload["entities"].Array? then Err(Malformed)
    else match CollectIds(payload["entities"].items)
      case Err(error) => Err(error)
      case Ok(ids) =>
        match DropRuntime(payload["entities"].items, ids)
        case Err(error) => Err(error)
        case Ok(kept) => Ok(Digest(h, Versioned("behavior", payload["entities" := Array(kept)])))
  }

  predicate WellFormedSuccessor(payload: Fields) {
    && "entities" in payload && payload["entities"].Array?
    && forall i :: 0 <= i < |payload["entities"].items| ==> WellFormedEntity(payload["entities"].items[i])
  }

  function EntitiesOf(payload: Fields): seq<Entity>
    requires WellFormedSuccessor(payload)
  {
    payload["entities"].items
  }

  lemma {:induction false} CollectIdsIff(entities: seq<Json>)
    ensures (forall i :: 0 <= i < |entities| ==> WellFormedEntity(entities[i])) ==> CollectIds(entities).Ok?
    ensures CollectIds(entities).Ok? ==> forall i :: 0 <= i < |entities| ==>
              entities[i].Object? && "kind" in entities[i].fields && (IsEvidence(entities[i]) ==> WellFormedEntity(entities[i]))
    ensures CollectIds(entities).Ok? ==> forall id :: id in CollectIds(entities).value <==>
              exists i :: 0 <= i < |entities| && NamesTarget(entities[i], id)
  {
    hide Hashable;
    if entities != [] {
      var rest := entities[1..];
      CollectIdsIff(rest);
      assert forall i :: 0 <= i < |rest| ==> rest[i] == entities[i + 1];
      assert forall i :: 0 < i < |entities| ==> entities[i] == rest[i - 1];
      if CollectIds(entities).Ok? {
        forall id ensures id in CollectIds(entities).value <==> exists i :: 0 <= i < |entities| && NamesTarget(entities[i], id) {
          TargetsStep(entities, id);
        }
      }
    }
  }

  predicate NamesTarget(e: Json, id: Json) {
    WellFormedEntity(e) && IsEvidence(e) && Target(e) == id
  }

  lemma TargetsStep(entities: seq<Json>, id: Json)
    requires entities != []
    ensures (exists i :: 0 <= i < |entities| && NamesTarget(entities[i], id)) <==>
            NamesTarget(entities[0], id) || exists i :: 0 <= i < |entities[1..]| && NamesTarget(entities[1..][i], id)
  {
    hide NamesTarget;
    var rest := entities[1..];
    if i :| 0 <= i < |rest| && NamesTarget(rest[i], id) { assert entities[i + 1] == rest[i]; }
    if i :| 0 < i < |entities| && NamesTarget(entities[i], id) { assert rest[i - 1] == entities[i]; }
  }

  lemma {:induction false} DropRuntimeIff(entities: seq<Json>, ids: set<Json>)
    requires forall i :: 0 <= i < |entities| ==>
      entities[i].Object? && "kind" in entities[i].fields && (IsEvidence(entities[i]) ==> WellFormedEntity(entities[i]))
    ensures DropRuntime(entities, ids).Ok? <==> forall i :: 0 <= i < |entities| ==> WellFormedEntity(entities[i])
    ensures DropRuntime(entities, ids).Ok? ==> DropRuntime(entities, ids).value == Keep(entities, ids)
  {
    hide Hashable;
    if entities != [] {
      var rest := entities[1..];
      assert forall i :: 0 <= i < |rest| ==> rest[i] == entities[i + 1];
      assert forall i :: 0 < i < |entities| ==> entities[i] == rest[i - 1];
      DropRuntimeIff(rest, ids);
    }
  }

  lemma CollectedAreRuntimeIds(entities: seq<Entity>)
    ensures CollectIds(entities) == Ok(RuntimeIds(entities))
  {
    hide CollectIds;
    CollectIdsIff(entities);
    ProjectionComputes(entities);
    var ids := CollectIds(entities).value;
    forall id ensures id in ids <==> id in RuntimeIds(entities) {
      if id in ids {
        var i :| 0 <= i < |entities| && NamesTarget(entities[i], id);
        assert IsEvidence(entities[i]) && Target(entities[i]) == id;
      }
      if id in RuntimeIds(entities) {
        var i :| 0 <= i < |entities| && IsEvidence(entities[i]) && Target(entities[i]) == id;
        assert NamesTarget(entities[i], id);
      }
    }
    assert ids == RuntimeIds(entities);
  }

  lemma ProjectionComputes(entities: seq<Entity>)
    ensures CollectIds(entities).Ok?
  {
    CollectIdsIff(entities);
  }

  /** The two comprehensions succeed together exactly for well-formed entities, and then compute the projection. */
  lemma ProjectionComputed(entities: seq<Json>)
    ensures (CollectIds(entities).Ok? && DropRuntime(entities, CollectIds(entities).value).Ok?) <==>
            forall i :: 0 <= i < |entities| ==> WellFormedEntity(entities[i])
  {
    hide CollectIds, DropRuntime, WellFormedEntity;
    CollectIdsIff(entities);
    if CollectIds(entities).Ok? { DropRuntimeIff(entities, CollectIds(entities).value); }
  }

  lemma ProjectionIs(entities: seq<Entity>)
    ensures CollectIds(entities) == Ok(RuntimeIds(entities))
    ensures DropRuntime(entities, RuntimeIds(entities)) == Ok(StableEntities(entities))
  {
    hide CollectIds, DropRuntime, Keep;
    CollectedAreRuntimeIds(entities);
    DropRuntimeIff(entities, RuntimeIds(entities));
  }

  /** A successor is refused exactly when a key that is looked up is missing or an identity cannot be in a set; the
      digest of any other is that of its projection. */
  lemma SuccessorRefused(h: string -> string, payload: Fields)
    ensures StableSuccessorDigest(h, payload).Ok? <==> WellFormedSuccessor(payload)
    ensures WellFormedSuccessor(payload) ==> StableSuccessorDigest(h, payload) == Ok(SuccessorDigest(h, payload, EntitiesOf(payload)))
  {
    hide Digest, Versioned, CollectIds, DropRuntime, WellFormedEntity, StableEntities, RuntimeIds;
    if "entities" in payload && payload["entities"].Array? {
      ProjectionComputed(payload["entities"].items);
      if WellFormedSuccessor(payload) { ProjectionIs(EntitiesOf(payload)); }
    }
  }

  lemma {:induction false} KeepMembers(entities: seq<Entity>, ids: set<Json>)
    ensures forall e: Entity :: e in Keep(entities, ids) <==> e in entities && Stays(e, ids)
  {
    if entities != [] {
      KeepMembers(entities[1..], ids);
      assert entities == [entities[0]] + entities[1..];
    }
  }

  lemma {:induction false} KeepAll(entities: seq<Entity>, ids: set<Json>)
    requires forall e: Entity :: e in entities ==> Stays(e, ids)
    ensures Keep(entities, ids) == entities
  {
    if entities != [] {
      assert entities[0] in entities;
      KeepAll(entities[1..], ids);
    }
  }

  /** Projecting twice changes nothing more. */
  lemma ProjectionIdempotent(entities: seq<Entity>)
    ensures StableEntities(StableEntities(entities)) == StableEntities(entities)
  {
    var kept := StableEntities(entities);
    KeepMembers(entities, RuntimeIds(entities));
    forall i | 0 <= i < |kept| ensures !IsEvidence(kept[i]) { assert kept[i] in kept; }
    assert RuntimeIds(kept) == {};
    KeepAll(kept, {});
  }

  /** `woven` holds the entities of `xs` in order with `extras` inserted anywhere. */
  ghost predicate Woven(woven: seq<Entity>, xs: seq<Entity>, extras: seq<Entity>)
    decreases |woven|
  {
    if woven == [] then xs == [] && extras == []
    else
      || (xs != [] && xs[0] == woven[0] && Woven(woven[1..], xs[1..], extras))
      || (extras != [] && extras[0] == woven[0] && Woven(woven[1..], xs, extras[1..]))
  }

  lemma {:induction false} WovenMembers(woven: seq<Entity>, xs: seq<Entity>, extras: seq<Entity>)
    requires Woven(woven, xs, extras)
    ensures forall e: Entity :: e in woven <==> e in xs || e in extras
    decreases |woven|
  {
    if woven != [] {
      assert woven == [woven[0]] + woven[1..];
      if xs != [] && xs[0] == woven[0] && Woven(woven[1..], xs[1..], extras) {
        WovenMembers(woven[1..], xs[1..], extras);
        assert xs == [xs[0]] + xs[1..];
      } else {
        WovenMembers(woven[1..], xs, extras[1..]);
        assert extras == [extras[0]] + extras[1..];
      }
    }
  }

  lemma {:induction false} WovenKeep(woven: seq<Entity>, xs: seq<Entity>, extras: seq<Entity>, ids: set<Json>)
    requires Woven(woven, xs, extras)
    requires forall e: Entity :: e in extras ==> !Stays(e, ids)
    ensures Keep(woven, ids) == Keep(xs, ids)
    decreases |woven|
  {
    hide Stays;
    if woven != [] {
      if xs != [] && xs[0] == woven[0] && Woven(woven[1..], xs[1..], extras) {
        WovenKeep(woven[1..], xs[1..], extras, ids);
      } else {
        assert extras[0] in extras;
        WovenKeep(woven[1..], xs, extras[1..], ids);
      }
    }
  }

  lemma RuntimeIdsMember(entities: seq<Entity>, id: Json)
    ensures id in RuntimeIds(entities) <==> exists e: Entity :: e in entities && IsEvidence(e) && Target(e) == id
  {
    if id in RuntimeIds(entities) {
      var i :| 0 <= i < |entities| && IsEvidence(entities[i]) && Target(entities[i]) == id;
      assert entities[i] in entities;
    }
  }

  lemma WovenIds(woven: seq<Entity>, xs: seq<Entity>, extras: seq<Entity>)
    requires Woven(woven, xs, extras)
    ensures RuntimeIds(woven) == RuntimeIds(xs) + RuntimeIds(extras)
  {
    WovenMembers(woven, xs, extras);
    forall id ensures id in RuntimeIds(woven) <==> id in RuntimeIds(xs) || id in RuntimeIds(extras) {
      RuntimeIdsMember(woven, id);
      RuntimeIdsMember(xs, id);
      RuntimeIdsMember(extras, id);
    }
  }

  /** Dropping more identities keeps the list as it is exactly when no kept entity bears one of them. */
  lemma {:induction false} KeepMore(xs: seq<Entity>, ids: set<Json>, more: set<Json>)
    ensures |Keep(xs, ids + more)| <= |Keep(xs, ids)|
    ensures Keep(xs, ids + more) == Keep(xs, ids) <==> forall e: Entity :: e in xs && Stays(e, ids) ==> IdOf(e) !in more
  {
    if xs != [] {
      KeepMore(xs[1..], ids, more);
      assert xs == [xs[0]] + xs[1..];
      assert xs[0] in xs;
      var less, kept := Keep(xs[1..], ids + more), Keep(xs[1..], ids);
      var head := [xs[0]];
      if Stays(xs[0], ids + more) {
        assert head + less == head + kept ==> (head + less)[1..] == (head + kept)[1..];
      } else if Stays(xs[0], ids) {
        assert |head + kept| == 1 + |kept| && IdOf(xs[0]) in more;
      } else {
        assert Keep(xs, ids + more) == less && Keep(xs, ids) == kept;
      }
    }
  }

  /** Evidence of a new run, with the provenance records it names, may be inserted anywhere: the projection does
      not change exactly when no surviving entity bears an identity that the new evidence names. */
  lemma BlindToRunEvidence(woven: seq<Entity>, xs: seq<Entity>, extras: seq<Entity>)
    requires Woven(woven, xs, extras)
    requires forall e: Entity :: e in extras ==> IsEvidence(e) || IdOf(e) in RuntimeIds(woven)
    ensures StableEntities(woven) == StableEntities(xs) <==>
            forall e: Entity :: e in xs && Stays(e, RuntimeIds(xs)) ==> IdOf(e) !in RuntimeIds(extras)
  {
    WovenIds(woven, xs, extras);
    WovenKeep(woven, xs, extras, RuntimeIds(woven));
    KeepMore(xs, RuntimeIds(xs), RuntimeIds(extras));
  }

  lemma ProjectedDigestIff(h: string -> string, a: Fields, xs: seq<Entity>, b: Fields, ys: seq<Entity>)
    requires Injective(h)
    ensures SuccessorDigest(h, a, xs) == SuccessorDigest(h, b, ys) <==>
            a - {"entities"} == b - {"entities"} && StableEntities(xs) == StableEntities(ys)
  {
    hide Digest, StableEntities;
    var va, vb := Array(StableEntities(xs)), Array(StableEntities(ys));
    var x, y := Versioned("behavior", a["entities" := va]), Versioned("behavior", b["entities" := vb]);
    UpdateSame(a, b, "entities", va, vb);
    if Digest(h, x) == Digest(h, y) {
      DigestsAgree(h, x, y);
      assert x.fields["behavior"] == y.fields["behavior"];
    }
  }

  /** Two successors have one digest exactly when their projections and their other fields agree. */
  lemma SuccessorDigestIff(h: string -> string, a: Fields, b: Fields)
    requires Injective(h) && StableSuccessorDigest(h, a).Ok? && StableSuccessorDigest(h, b).Ok?
    ensures WellFormedSuccessor(a) && WellFormedSuccessor(b)
    ensures StableSuccessorDigest(h, a) == StableSuccessorDigest(h, b) <==>
            a - {"entities"} == b - {"entities"} && StableEntities(EntitiesOf(a)) == StableEntities(EntitiesOf(b))
  {
    hide StableSuccessorDigest, SuccessorDigest, StableEntities, WellFormedSuccessor, EntitiesOf, Injective;
    SuccessorRefused(h, a);
    SuccessorRefused(h, b);
    ProjectedDigestIff(h, a, EntitiesOf(a), b, EntitiesOf(b));
  }

  /** Any hash gives one digest to a successor and to the same with the evidence of a run inserted anywhere, when the
      provenance records of that evidence are new. */
  lemma RunEvidenceSameDigest(h: string -> string, a: Fields, b: Fields, extras: seq<Entity>)
    requires WellFormedSuccessor(a) && WellFormedSuccessor(b) && a - {"entities"} == b - {"entities"}
    requires Woven(EntitiesOf(b), EntitiesOf(a), extras)
    requires forall e: Entity :: e in extras ==> IsEvidence(e) || IdOf(e) in RuntimeIds(EntitiesOf(b))
    requires forall e: Entity :: e in EntitiesOf(a) ==> IdOf(e) !in RuntimeIds(extras)
    ensures StableSuccessorDigest(h, a) == StableSuccessorDigest(h, b)
  {
    hide StableSuccessorDigest, WellFormedSuccessor, EntitiesOf, Woven, Digest;
    SuccessorRefused(h, a);
    SuccessorRefused(h, b);
    BlindToRunEvidence(EntitiesOf(b), EntitiesOf(a), extras);
    var kept := Array(StableEntities(EntitiesOf(a)));
    UpdateSame(a, b, "entities", kept, kept);
  }

  // ---------- In literal terms ----------

  /** What remains: entities of another kind than "verification_evidence" whose identity no such evidence names. */
  lemma SurvivorsAre(xs: seq<Entity>, e: Entity)
    ensures e in StableEntities(xs) <==>
            && e in xs && e.fields["kind"] != Text("verification_evidence")
            && forall v: Entity :: v in xs && v.fields["kind"] == Text("verification_evidence") ==>
                 v.fields["provenance"].fields["target_id"] != (if "id" in e.fields then e.fields["id"] else Null)
  {
    var ids := RuntimeIds(xs);
    KeepMembers(xs, ids);
    RuntimeIdsMember(xs, IdOf(e));
  }

  /** One piece of evidence and the provenance record it names, inserted anywhere, leave nothing behind. */
  lemma OneRunInvisible(woven: seq<Entity>, xs: seq<Entity>, evidence: Entity, record: Entity)
    requires Woven(woven, xs, [evidence, record]) || Woven(woven, xs, [record, evidence])
    requires evidence.fields["kind"] == Text("verification_evidence")
    requires record.fields["kind"] != Text("verification_evidence") && "id" in record.fields
    requires record.fields["id"] == evidence.fields["provenance"].fields["target_id"] != Null
    requires forall x: Entity :: x in xs && "id" in x.fields ==> x.fields["id"] != record.fields["id"]
    ensures StableEntities(woven) == StableEntities(xs)
  {
    var extras := if Woven(woven, xs, [evidence, record]) then [evidence, record] else [record, evidence];
    assert evidence in extras && IsEvidence(evidence) && Target(evidence) == IdOf(record);
    RuntimeIdsMember(extras, IdOf(record));
    WovenIds(woven, xs, extras);
    forall e: Entity | e in xs ensures IdOf(e) !in RuntimeIds(extras) {
      RuntimeIdsMember(extras, IdOf(e));
      assert forall v: Entity :: v in extras ==> v == evidence || v == record;
    }
    assert forall e: Entity :: e in extras ==> e == evidence || e == record;
    BlindToRunEvidence(woven, xs, extras);
  }

  /** The successor's digest is that of this object. */
  lemma SuccessorDigestIs(h: string -> string, rest: Fields, entities: seq<Entity>)
    ensures SuccessorDigest(h, rest, entities) ==
            h(Canonical(Object(map["projection_version" := Text("1.0.0"),
                                   "behavior" := Object(rest["entities" := Array(StableEntities(entities))])])))
  {
  }

  /** A result in the digest: without its identity and its time, under its version. */
  lemma StableResultIs(result: Fields)
    ensures StableResult(result) ==
            Object(map["projection_version" := Text("1.0.0"), "result" := Object(result - {"id", "executed_at"})])
  {
  }

  /** A reference with its digest's value overwritten. */
  lemma PutReferenceIs(m: Fields, key: string, digest: string)
    requires HasReference(m, key)
    ensures PutReference(m, key, digest) ==
            m[key := Object(m[key].fields["canonical_digest" := Object(m[key].fields["canonical_digest"].fields["value" := Text(digest)])])]
  {
  }

  /** The lifecycle digest, from the stable bindings outwards. */
  lemma LifecycleDigestIs(h: string -> string, c: Chain)
    requires WellFormed(c)
    ensures var implementation := c.implementation["bindings" := Array(StableBindings(h, c.implementation["bindings"].items))];
      var d := h(Canonical(Object(map["projection_version" := Text("1.0.0"), "implementation" := Object(implementation)])));
      var verification := PutReference(c.verification, "implementation", d);
      var e := h(Canonical(Object(map["projection_version" := Text("1.0.0"), "verification" := Object(verification)])));
      var archive := PutReference(c.archive, "implementation", d);
      HasReference(archive, "verification") &&
      LifecycleDigest(h, c) ==
        h(Canonical(Object(map["projection_version" := Text("1.0.0"), "resources" := Object(map[
          "proposal" := Object(c.proposal), "delta" := Object(c.delta), "tasks" := Object(c.tasks),
          "implementation" := Object(implementation), "verification" := Object(verification),
          "archive" := Object(PutReference(archive, "verification", e))])])))
  {
    hide PutReference, StableBindings, Canonical;
    var d := Digest(h, Versioned("implementation", StableImplementation(h, c.implementation)));
    ReferenceKept(c.archive, "implementation", d, "verification");
  }

  /** A binding in the digest: its result projected, and that result's digest put in its validation. */
  lemma StableBindingIs(h: string -> string, b: Json)
    requires WellFormedBinding(b)
    ensures var result := StableResult(b.fields["result"].fields);
      var v := b.fields["validation"];
      StableBinding(h, b) == Object(b.fields["result" := result]["validation" :=
        Object(v.fields["result_digest" := Object(v.fields["result_digest"].fields["value" := Text(h(Canonical(result)))])])])
  {
    hide StableResult, Canonical;
  }
}
