/**
 * Cargo feature resolution (rb-feature-resolver, resolver.rs): a worklist over the manifest's
 * `[features]` table. The workspace manifests, once read, are parameters.
 */
module Resolver {
  import opened Prelude

  type Feature = string

  datatype Manifest = Manifest(name: Option<string>, features: map<Feature, seq<string>>)

  datatype Request = Request(features: seq<Feature>, defaults: bool)

  /** A dependency entry; the short form lists no features. */
  datatype Dependency = Dependency(name: string, features: seq<Feature>)

  datatype Member = Unusable | Member(name: Option<string>, dependencies: seq<Dependency>)

  datatype Workspace = NoManifest | Broken(reason: string) | NotAWorkspace | Workspace(members: seq<Member>)

  datatype Error =
    | UnknownFeature(name: string, feature: Feature)
    | BadManifest(reason: string)
    | CyclicDependency(feature: Feature)

  const MAX_ITERATIONS := 4096

  /** `None` for `dep:name` and `name/feature`. */
  function AsSelfFeature(spec: string): Option<Feature> {
    if "dep:" <= spec || '/' in spec then None else Some(spec)
  }

  /** A spec of the manifest that enables another of its own features. */
  predicate Enables(m: Manifest, spec: string) {
    AsSelfFeature(spec).Some? && spec in m.features
  }

  function Children(m: Manifest, feature: Feature): set<Feature> {
    if feature in m.features then set spec | spec in m.features[feature] && Enables(m, spec) else {}
  }

  // ---------------------------------------------------------------------------------------------
  // The set that a worklist is meant to find
  // ---------------------------------------------------------------------------------------------

  predicate IsClosed(m: Manifest, s: set<Feature>) {
    forall f, c | f in s && c in Children(m, f) :: c in s
  }

  /** The least closed set above the seeds. */
  ghost predicate IsLeast(m: Manifest, seeds: set<Feature>, s: set<Feature>) {
    && seeds <= s && IsClosed(m, s)
    && forall t: set<Feature> | seeds <= t && IsClosed(m, t) :: s <= t
  }

  function Expand(m: Manifest, s: set<Feature>): set<Feature> {
    s + set f, c | f in s && c in Children(m, f) :: c
  }

  /** All the children at once, as often as that adds any. */
  function Closure(m: Manifest, s: set<Feature>): (r: set<Feature>)
    requires s <= m.features.Keys
    ensures s <= r <= m.features.Keys
    decreases m.features.Keys - s
  {
    if Expand(m, s) == s then s else Closure(m, Expand(m, s))
  }

  lemma {:induction false} ClosureIsLeast(m: Manifest, s: set<Feature>)
    requires s <= m.features.Keys
    ensures IsLeast(m, s, Closure(m, s))
    decreases m.features.Keys - s
  {
    var next := Expand(m, s);
    if next == s {
      forall f, c | f in s && c in Children(m, f) ensures c in s {
        assert c in next;
      }
    } else {
      ClosureIsLeast(m, next);
      forall t: set<Feature> | s <= t && IsClosed(m, t) ensures Closure(m, s) <= t {
        assert next <= t;
      }
    }
  }

  // ---------------------------------------------------------------------------------------------
  // Seeds
  // ---------------------------------------------------------------------------------------------

  function FirstUnknown(m: Manifest, features: seq<Feature>): Option<Feature> {
    if features == [] then None
    else if features[0] !in m.features then Some(features[0])
    else FirstUnknown(m, features[1..])
  }

  /** A feature of this crate that some usable sibling asks for. */
  predicate AskedBy(m: Manifest, current: string, member: Member, f: Feature) {
    && member.Member? && member.name != Some(current) && f in m.features
    && ListedIn(member.dependencies, current, f)
  }

  predicate ListedIn(dependencies: seq<Dependency>, current: string, f: Feature) {
    exists i :: 0 <= i < |dependencies| && dependencies[i].name == current && f in dependencies[i].features
  }

  lemma {:induction false} ListedInOneMore(dependencies: seq<Dependency>, current: string, k: nat, f: Feature)
    requires k < |dependencies|
    ensures ListedIn(dependencies[..k + 1], current, f) <==>
      ListedIn(dependencies[..k], current, f) || (dependencies[k].name == current && f in dependencies[k].features)
  {
  }

  predicate AskedByAny(m: Manifest, current: string, members: seq<Member>, f: Feature) {
    exists k :: 0 <= k < |members| && AskedBy(m, current, members[k], f)
  }

  function Unified(m: Manifest, ws: Workspace): set<Feature> {
    if ws.Workspace? && m.name.Some? then set f | f in m.features && AskedByAny(m, m.name.value, ws.members, f) else {}
  }

  function Defaults(m: Manifest, req: Request): set<Feature> {
    if req.defaults && "default" in m.features then {"default"} + Children(m, "default") else {}
  }

  function Seeds(m: Manifest, req: Request, ws: Workspace): set<Feature> {
    (set f | f in req.features) + Defaults(m, req) + Unified(m, ws)
  }

  function AsSet(s: seq<Feature>): set<Feature> {
    set f | f in s
  }

  lemma {:induction false} AsSetMore(s: seq<Feature>, f: Feature)
    ensures AsSet(s + [f]) == AsSet(s) + {f}
  {
  }

  lemma {:induction false} AllKnown(m: Manifest, features: seq<Feature>)
    requires FirstUnknown(m, features).None?
    ensures AsSet(features) <= m.features.Keys
  {
    if features == [] {
    } else {
      AllKnown(m, features[1..]);
      assert forall f | f in features :: f == features[0] || f in features[1..];
    }
  }

  lemma {:induction false} SeedsAreKnown(m: Manifest, req: Request, ws: Workspace)
    requires FirstUnknown(m, req.features).None?
    ensures Seeds(m, req, ws) <= m.features.Keys
  {
    AllKnown(m, req.features);
    assert forall f | f in req.features :: f in AsSet(req.features);
  }

  // ---------------------------------------------------------------------------------------------
  // The worklist
  // ---------------------------------------------------------------------------------------------

  method PushRequested(m: Manifest, features: seq<Feature>) returns (r: Result<seq<Feature>, Feature>)
    ensures r == if FirstUnknown(m, features).Some? then Err(FirstUnknown(m, features).value) else Ok(features)
  {
    var pending: seq<Feature> := [];
    for i := 0 to |features|
      invariant pending == features[..i] && FirstUnknown(m, features[i..]) == FirstUnknown(m, features)
    {
      if features[i] !in m.features {
        return Err(features[i]);
      }
      pending := pending + [features[i]];
    }
    assert features[..|features|] == features;
    return Ok(pending);
  }

  /** Appends the specs that enable own features, except those in `skip`. */
  method PushChildren(m: Manifest, specs: seq<string>, skip: set<Feature>, queue: seq<Feature>)
    returns (pending: seq<Feature>)
    ensures queue <= pending
    ensures AsSet(pending) == AsSet(queue) + set spec | spec in specs && Enables(m, spec) && spec !in skip
  {
    pending := queue;
    for i := 0 to |specs|
      invariant queue <= pending
      invariant AsSet(pending) == AsSet(queue) + set spec | spec in specs[..i] && Enables(m, spec) && spec !in skip
    {
      assert specs[..i + 1] == specs[..i] + [specs[i]];
      var name := AsSelfFeature(specs[i]);
      if name.Some? && name.value in m.features && name.value !in skip {
        AsSetMore(pending, name.value);
        pending := pending + [name.value];
      }
    }
    assert specs[..|specs|] == specs;
  }

  method SeedDefaults(m: Manifest, req: Request, queue: seq<Feature>) returns (pending: seq<Feature>)
    ensures AsSet(pending) == AsSet(queue) + Defaults(m, req)
  {
    pending := queue;
    if req.defaults && "default" in m.features {
      AsSetMore(pending, "default");
      pending := pending + ["default"];
      pending := PushChildren(m, m.features["default"], {}, pending);
    }
  }

  method CollectMember(m: Manifest, current: string, member: Member, queue: seq<Feature>)
    returns (pending: seq<Feature>)
    ensures AsSet(pending) == AsSet(queue) + set f | f in m.features && AskedBy(m, current, member, f)
  {
    pending := queue;
    if member.Unusable? || member.name == Some(current) {
      return;
    }
    ghost var asked: set<Feature> := {};
    for i := 0 to |member.dependencies|
      invariant AsSet(pending) == AsSet(queue) + asked
      invariant forall f :: f in asked <==> f in m.features && ListedIn(member.dependencies[..i], current, f)
    {
      var dependency := member.dependencies[i];
      if dependency.name == current {
        ghost var before := asked;
        for j := 0 to |dependency.features|
          invariant AsSet(pending) == AsSet(queue) + asked
          invariant forall f :: f in asked <==> f in before || (f in m.features && f in dependency.features[..j])
        {
          assert dependency.features[..j + 1] == dependency.features[..j] + [dependency.features[j]];
          if dependency.features[j] in m.features {
            AsSetMore(pending, dependency.features[j]);
            pending := pending + [dependency.features[j]];
            asked := asked + {dependency.features[j]};
          }
        }
        assert dependency.features[..|dependency.features|] == dependency.features;
      }
      forall f
        ensures ListedIn(member.dependencies[..i + 1], current, f) <==>
          ListedIn(member.dependencies[..i], current, f) || (dependency.name == current && f in dependency.features)
      {
        ListedInOneMore(member.dependencies, current, i, f);
      }
    }
    assert member.dependencies[..|member.dependencies|] == member.dependencies;
  }

  method CollectWorkspaceUnified(m: Manifest, ws: Workspace, queue: seq<Feature>)
    returns (r: Result<seq<Feature>, Error>)
    ensures ws.Broken? ==> r == Err(BadManifest(ws.reason))
    ensures !ws.Broken? ==> r.Ok? && AsSet(r.value) == AsSet(queue) + Unified(m, ws)
  {
    if ws.NoManifest? || ws.NotAWorkspace? {
      return Ok(queue);
    }
    if ws.Broken? {
      return Err(BadManifest(ws.reason));
    }
    if m.name.None? {
      return Ok(queue);
    }
    var pending := queue;
    for k := 0 to |ws.members|
      invariant AsSet(pending) ==
        AsSet(queue) + set f | f in m.features && AskedByAny(m, m.name.value, ws.members[..k], f)
    {
      pending := CollectMember(m, m.name.value, ws.members[k], pending);
      AskedByOneMore(m, m.name.value, ws.members, k);
    }
    assert ws.members[..|ws.members|] == ws.members;
    return Ok(pending);
  }

  lemma {:induction false} AskedByOneMore(m: Manifest, current: string, members: seq<Member>, k: nat)
    requires k < |members|
    ensures forall f :: AskedByAny(m, current, members[..k + 1], f) <==>
      AskedByAny(m, current, members[..k], f) || AskedBy(m, current, members[k], f)
  {
  }

  /** Every child of a resolved feature is resolved or queued. */
  predicate IsExplored(m: Manifest, resolved: set<Feature>, queued: set<Feature>) {
    forall f | f in resolved :: Children(m, f) <= resolved + queued
  }

  predicate InLoop(m: Manifest, goal: set<Feature>, seeds: set<Feature>, resolved: set<Feature>, queued: set<Feature>) {
    resolved <= goal && queued <= goal && seeds <= resolved + queued && IsExplored(m, resolved, queued)
  }

  lemma {:induction false} SkipKeeps(m: Manifest, goal: set<Feature>, seeds: set<Feature>, resolved: set<Feature>,
                                     queued: set<Feature>, popped: Feature)
    requires InLoop(m, goal, seeds, resolved, queued + {popped}) && popped in resolved
    ensures InLoop(m, goal, seeds, resolved, queued)
  {
  }

  lemma {:induction false} ResolveKeeps(m: Manifest, goal: set<Feature>, seeds: set<Feature>, resolved: set<Feature>,
                                        queued: set<Feature>, popped: Feature, after: set<Feature>)
    requires InLoop(m, goal, seeds, resolved, queued + {popped}) && IsClosed(m, goal)
    requires after == queued + (Children(m, popped) - (resolved + {popped}))
    ensures InLoop(m, goal, seeds, resolved + {popped}, after)
  {
  }

  lemma {:induction false} Explored(m: Manifest, goal: set<Feature>, seeds: set<Feature>, resolved: set<Feature>)
    requires InLoop(m, goal, seeds, resolved, {}) && IsLeast(m, seeds, goal)
    ensures resolved == goal
  {
  }

  /** The expansion loop. A pop that is new counts as an iteration. */
  method ExpandAll(m: Manifest, queue: seq<Feature>) returns (r: Result<set<Feature>, Feature>)
    requires AsSet(queue) <= m.features.Keys
    ensures r.Ok? <==> |Closure(m, AsSet(queue))| <= MAX_ITERATIONS
    ensures r.Ok? ==> r.value == Closure(m, AsSet(queue))
    ensures r.Err? ==> r.error in Closure(m, AsSet(queue))
  {
    ghost var goal, seeds := Closure(m, AsSet(queue)), AsSet(queue);
    ClosureIsLeast(m, seeds);
    var pending := queue;
    var resolved: set<Feature> := {};
    var iterations := 0;
    while pending != []
      invariant InLoop(m, goal, seeds, resolved, AsSet(pending))
      invariant iterations == |resolved| <= MAX_ITERATIONS
      decreases m.features.Keys - resolved, |pending|
    {
      var feature := pending[0];
      var rest := pending[1..];
      PopIs(pending);
      pending := rest;
      if feature in resolved {
        SkipKeeps(m, goal, seeds, resolved, AsSet(rest), feature);
        continue;
      }
      iterations := iterations + 1;
      if iterations > MAX_ITERATIONS {
        SubsetSize(resolved + {feature}, goal);
        return Err(feature);
      }
      ghost var before := resolved;
      resolved := resolved + {feature};
      if feature in m.features {
        pending := PushChildren(m, m.features[feature], resolved, rest);
      }
      ResolveKeeps(m, goal, seeds, before, AsSet(rest), feature, AsSet(pending));
    }
    Explored(m, goal, seeds, resolved);
    return Ok(resolved);
  }

  lemma {:induction false} PopIs(pending: seq<Feature>)
    requires pending != []
    ensures AsSet(pending) == AsSet(pending[1..]) + {pending[0]} && pending[0] in AsSet(pending)
  {
  }

  method Resolve(m: Manifest, req: Request, ws: Workspace) returns (r: Result<set<Feature>, Error>)
    ensures FirstUnknown(m, req.features).Some? ==>
      r == Err(UnknownFeature(if m.name.Some? then m.name.value else "<unknown>", FirstUnknown(m, req.features).value))
    ensures FirstUnknown(m, req.features).None? && ws.Broken? ==> r == Err(BadManifest(ws.reason))
    ensures FirstUnknown(m, req.features).None? && !ws.Broken? ==> Seeds(m, req, ws) <= m.features.Keys
    ensures FirstUnknown(m, req.features).None? && !ws.Broken? ==>
      var least := Closure(m, Seeds(m, req, ws));
      if |least| <= 4096 then r == Ok(least)
      else r.Err? && r.error.CyclicDependency? && r.error.feature in least
  {
    var requested := PushRequested(m, req.features);
    if requested.Err? {
      return Err(UnknownFeature(if m.name.Some? then m.name.value else "<unknown>", requested.error));
    }
    var seeded := SeedDefaults(m, req, requested.value);
    var unified := CollectWorkspaceUnified(m, ws, seeded);
    if unified.Err? {
      return Err(unified.error);
    }
    SeedsAreKnown(m, req, ws);
    assert AsSet(unified.value) == Seeds(m, req, ws);
    var resolved := ExpandAll(m, unified.value);
    match resolved
    case Ok(features) => return Ok(features);
    case Err(feature) => return Err(CyclicDependency(feature));
  }

  // ---------------------------------------------------------------------------------------------
  // What the answer is
  // ---------------------------------------------------------------------------------------------

  lemma {:induction false} ClosureIsMonotone(m: Manifest, a: set<Feature>, b: set<Feature>)
    requires a <= b <= m.features.Keys
    ensures Closure(m, a) <= Closure(m, b)
  {
    ClosureIsLeast(m, a);
    ClosureIsLeast(m, b);
  }

  /** Asking for more, or adding members to the workspace, never takes a feature away. */
  lemma {:induction false} ResolveIsMonotone(m: Manifest, a: Request, b: Request, ws: Workspace, more: Workspace)
    requires FirstUnknown(m, b.features).None? && AsSet(a.features) <= AsSet(b.features) && (a.defaults ==> b.defaults)
    requires Unified(m, ws) <= Unified(m, more)
    ensures Seeds(m, a, ws) <= m.features.Keys && Seeds(m, b, more) <= m.features.Keys
    ensures Closure(m, Seeds(m, a, ws)) <= Closure(m, Seeds(m, b, more))
  {
    SeedsAreKnown(m, b, more);
    assert AsSet(a.features) + AsSet(b.features) == AsSet(b.features);
    assert forall f | f in a.features :: f in AsSet(a.features) && f in AsSet(b.features);
    assert Seeds(m, a, ws) <= Seeds(m, b, more);
    ClosureIsMonotone(m, Seeds(m, a, ws), Seeds(m, b, more));
  }

  /** Queueing the children of `default` beside it changes nothing. */
  lemma {:induction false} DefaultChildrenAreRedundant(m: Manifest, seeds: set<Feature>)
    requires seeds <= m.features.Keys && "default" in seeds
    ensures seeds + Children(m, "default") <= m.features.Keys
    ensures Closure(m, seeds + Children(m, "default")) == Closure(m, seeds)
  {
    ClosureIsLeast(m, seeds);
    ClosureIsLeast(m, seeds + Children(m, "default"));
    assert Children(m, "default") <= Closure(m, seeds);
  }

  /** No cycle alone is an error: a manifest of at most 4096 features always resolves, cyclic or not. */
  lemma {:induction false} SmallManifestsResolve(m: Manifest, seeds: set<Feature>)
    requires seeds <= m.features.Keys && |m.features.Keys| <= 4096
    ensures |Closure(m, seeds)| <= 4096
  {
    SubsetSize(Closure(m, seeds), m.features.Keys);
  }

  /** A feature is in the answer exactly when a chain of self-feature entries leads to it from a seed. */
  predicate IsChain(m: Manifest, path: seq<Feature>) {
    path != [] && forall i | 0 <= i < |path| - 1 :: path[i + 1] in Children(m, path[i])
  }

  ghost predicate Leads(m: Manifest, seeds: set<Feature>, f: Feature) {
    exists path :: IsChain(m, path) && path[0] in seeds && path[|path| - 1] == f
  }

  lemma {:induction false} ChainStays(m: Manifest, s: set<Feature>, path: seq<Feature>)
    requires IsClosed(m, s) && IsChain(m, path) && path[0] in s
    ensures path[|path| - 1] in s
    decreases |path|
  {
    if |path| > 1 {
      ChainStays(m, s, path[..|path| - 1]);
    }
  }

  lemma {:induction false} LeadsOn(m: Manifest, seeds: set<Feature>, f: Feature, c: Feature)
    requires Leads(m, seeds, f) && c in Children(m, f)
    ensures Leads(m, seeds, c)
  {
    var path :| IsChain(m, path) && path[0] in seeds && path[|path| - 1] == f;
    assert IsChain(m, path + [c]) && (path + [c])[0] == path[0];
  }

  lemma {:induction false} LedFeatures(m: Manifest, seeds: set<Feature>) returns (led: set<Feature>)
    requires seeds <= m.features.Keys
    ensures seeds <= led && IsClosed(m, led) && forall f | f in led :: Leads(m, seeds, f)
  {
    led := set f | f in m.features && Leads(m, seeds, f);
    forall f | f in seeds ensures f in led {
      assert IsChain(m, [f]);
    }
    forall f, c | f in led && c in Children(m, f) ensures c in led {
      LeadsOn(m, seeds, f, c);
    }
  }

  lemma {:induction false} ClosureIsReachability(m: Manifest, seeds: set<Feature>, f: Feature)
    requires seeds <= m.features.Keys
    ensures f in Closure(m, seeds) <==> Leads(m, seeds, f)
  {
    ClosureIsLeast(m, seeds);
    if Leads(m, seeds, f) {
      var path :| IsChain(m, path) && path[0] in seeds && path[|path| - 1] == f;
      ChainStays(m, Closure(m, seeds), path);
    }
    var led := LedFeatures(m, seeds);
    assert Closure(m, seeds) <= led;
  }
}
