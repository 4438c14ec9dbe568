/**
 * Which features a request resolves to (rb-feature-resolver, resolver.rs), from the manifest entries, the request
 * and the workspace alone.
 */
module ResolverExact {
  import opened Prelude
  import opened Resolver

  /** `f` lists `c`, which is a feature of the same crate: no dependency, and no feature of one. */
  predicate IsEntry(m: Manifest, f: Feature, c: Feature) {
    && f in m.features && c in m.features[f] && c in m.features
    && !(|c| >= 4 && c[..4] == "dep:") && forall i | 0 <= i < |c| :: c[i] != '/'
  }

  /** Another member of the workspace depends on this crate with that feature. */
  predicate IsAsked(m: Manifest, ws: Workspace, f: Feature) {
    && ws.Workspace? && m.name.Some?
    && exists k, i :: 0 <= k < |ws.members| && ws.members[k].Member? && ws.members[k].name != m.name
        && 0 <= i < |ws.members[k].dependencies| && ws.members[k].dependencies[i].name == m.name.value
        && f in ws.members[k].dependencies[i].features
  }

  /** Requested, or the default unless that is turned off, or asked for in the workspace. */
  predicate IsSeed(m: Manifest, req: Request, ws: Workspace, f: Feature) {
    f in req.features || (f in m.features && ((req.defaults && f == "default") || IsAsked(m, ws, f)))
  }

  predicate IsPath(m: Manifest, path: seq<Feature>) {
    path != [] && forall i | 0 <= i < |path| - 1 :: IsEntry(m, path[i], path[i + 1])
  }

  ghost predicate IsReached(m: Manifest, req: Request, ws: Workspace, f: Feature) {
    exists path :: IsPath(m, path) && IsSeed(m, req, ws, path[0]) && path[|path| - 1] == f
  }

  predicate IsKnown(m: Manifest, req: Request) {
    forall f | f in req.features :: f in m.features
  }

  lemma {:induction false} EntryIsChild(m: Manifest, f: Feature, c: Feature)
    ensures c in Children(m, f) <==> IsEntry(m, f, c)
  {
    assert "dep:" <= c <==> |c| >= 4 && c[..4] == "dep:";
  }

  lemma {:induction false} PathIsChain(m: Manifest, path: seq<Feature>)
    ensures IsChain(m, path) <==> IsPath(m, path)
  {
    forall i | 0 <= i < |path| - 1 ensures path[i + 1] in Children(m, path[i]) <==> IsEntry(m, path[i], path[i + 1]) {
      EntryIsChild(m, path[i], path[i + 1]);
    }
  }

  lemma {:induction false} AskedIs(m: Manifest, ws: Workspace, f: Feature)
    ensures f in Unified(m, ws) <==> f in m.features && IsAsked(m, ws, f)
  {
    if f in m.features && IsAsked(m, ws, f) {
      var k, i :| 0 <= k < |ws.members| && ws.members[k].Member? && ws.members[k].name != m.name
                  && 0 <= i < |ws.members[k].dependencies| && ws.members[k].dependencies[i].name == m.name.value
                  && f in ws.members[k].dependencies[i].features;
      assert AskedBy(m, m.name.value, ws.members[k], f);
    }
    if f in Unified(m, ws) {
      var k :| 0 <= k < |ws.members| && AskedBy(m, m.name.value, ws.members[k], f);
      var i :| 0 <= i < |ws.members[k].dependencies| && ws.members[k].dependencies[i].name == m.name.value
               && f in ws.members[k].dependencies[i].features;
      assert ws.members[k].name != m.name;
    }
  }

  lemma {:induction false} SeedIs(m: Manifest, req: Request, ws: Workspace, f: Feature)
    ensures f in Seeds(m, req, ws) <==>
      IsSeed(m, req, ws, f) || (req.defaults && "default" in m.features && IsEntry(m, "default", f))
  {
    AskedIs(m, ws, f);
    EntryIsChild(m, "default", f);
  }

  lemma {:induction false} FirstUnknownIs(m: Manifest, features: seq<Feature>)
    ensures FirstUnknown(m, features).None? <==> forall f | f in features :: f in m.features
    ensures FirstUnknown(m, features).Some? ==>
      exists i :: 0 <= i < |features| && features[i] == FirstUnknown(m, features).value && features[i] !in m.features
                  && forall j | 0 <= j < i :: features[j] in m.features
  {
    if features == [] {
    } else if features[0] in m.features {
      var rest := features[1..];
      FirstUnknownIs(m, rest);
      assert forall f | f in features :: f == features[0] || f in rest;
      assert forall f | f in rest :: f in features;
      if FirstUnknown(m, rest).Some? {
        var i :| 0 <= i < |rest| && rest[i] == FirstUnknown(m, rest).value && rest[i] !in m.features
                 && forall j | 0 <= j < i :: rest[j] in m.features;
        assert features[i + 1] == rest[i] && forall j | 0 < j < i + 1 :: features[j] == rest[j - 1];
      }
    } else {
      assert features[0] in features;
    }
  }

  lemma {:induction false} DefaultLeads(m: Manifest, path: seq<Feature>)
    requires IsPath(m, path) && IsEntry(m, "default", path[0])
    ensures IsPath(m, ["default"] + path) && (["default"] + path)[|path|] == path[|path| - 1]
  {
    var all := ["default"] + path;
    forall i | 0 <= i < |all| - 1 ensures IsEntry(m, all[i], all[i + 1]) {
      if i > 0 {
        assert all[i] == path[i - 1] && all[i + 1] == path[i];
      }
    }
  }

  lemma {:induction false} LeadsIsReached(m: Manifest, req: Request, ws: Workspace, f: Feature)
    requires Leads(m, Seeds(m, req, ws), f)
    ensures IsReached(m, req, ws, f)
  {
    var path :| IsChain(m, path) && path[0] in Seeds(m, req, ws) && path[|path| - 1] == f;
    PathIsChain(m, path);
    SeedIs(m, req, ws, path[0]);
    if !IsSeed(m, req, ws, path[0]) {
      DefaultLeads(m, path);
      assert IsSeed(m, req, ws, (["default"] + path)[0]);
    }
  }

  /** A known request resolves to exactly the features that entries lead to from the seeds. */
  lemma {:induction false} ResolvedExactly(m: Manifest, req: Request, ws: Workspace, f: Feature)
    requires IsKnown(m, req)
    ensures Seeds(m, req, ws) <= m.features.Keys
    ensures f in Closure(m, Seeds(m, req, ws)) <==> IsReached(m, req, ws, f)
  {
    FirstUnknownIs(m, req.features);
    SeedsAreKnown(m, req, ws);
    ClosureIsReachability(m, Seeds(m, req, ws), f);
    if Leads(m, Seeds(m, req, ws), f) {
      LeadsIsReached(m, req, ws, f);
    }
    if IsReached(m, req, ws, f) {
      var path :| IsPath(m, path) && IsSeed(m, req, ws, path[0]) && path[|path| - 1] == f;
      PathIsChain(m, path);
      SeedIs(m, req, ws, path[0]);
    }
  }
}
